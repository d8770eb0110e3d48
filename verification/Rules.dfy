/** rule.go: operators, the filter-rule engine and the retention engine. */
module Rules {
  import opened Types
  import opened Text
  import opened StatusCode
  import opened Sequences

  type FieldMap = map<string, string>

  /** `path.Match(pattern, name)` reporting a match without error; any function at all. */
  type Glob = (string, string) -> bool

  predicate MatchOperator(glob: Glob, operator: string, fieldValue: string, ruleValue: string) {
    match operator
    case "equals" => fieldValue == ruleValue
    case "contains" => Contains(fieldValue, ruleValue)
    case "starts_with" => HasPrefix(fieldValue, ruleValue)
    case "matches_glob" => glob(ruleValue, fieldValue)
    case _ => false
  }

  /** The field must be there, and its text must pass the test that the operator names; an unknown
      operator never passes. */
  ghost predicate Passes(glob: Glob, field: string, operator: string, value: string, fields: FieldMap) {
    && field in fields
    && (|| (operator == "equals" && fields[field] == value)
        || (operator == "contains" && exists i :: OccursAt(fields[field], value, i))
        || (operator == "starts_with" && value <= fields[field])
        || (operator == "matches_glob" && glob(value, fields[field])))
  }

  /** The field map of a trace; `None` is the printer's panic on the status code. */
  function TraceFields(t: Trace): Option<FieldMap> {
    match StatusText(t.statusCode)
    case None => None
    case Some(code) =>
      Some(map["remote_ip" := t.remoteIp, "route" := t.route, "status_code" := TrimSpace(code),
               "method" := t.verb, "user_agent" := t.userAgent, "user_id" := t.userId])
  }

  // ----- filter rules -----

  datatype FilterRule = FilterRule(
    id: int, name: string, field: string, operator: string, value: string, action: string, enabled: bool)

  predicate Triggers(glob: Glob, r: FilterRule, fields: FieldMap) {
    r.field in fields && MatchOperator(glob, r.operator, fields[r.field], r.value)
  }

  lemma TriggersMeaning(glob: Glob, r: FilterRule, fields: FieldMap)
    ensures Triggers(glob, r, fields) <==> Passes(glob, r.field, r.operator, r.value, fields)
  {
  }

  ghost predicate DecidesAt(glob: Glob, rules: seq<FilterRule>, fields: FieldMap, i: int) {
    && 0 <= i < |rules| && Passes(glob, rules[i].field, rules[i].operator, rules[i].value, fields)
    && forall j :: 0 <= j < i ==> !Passes(glob, rules[j].field, rules[j].operator, rules[j].value, fields)
  }

  class RuleEngine {
    const rules: seq<FilterRule>

    constructor (all: seq<FilterRule>)
      ensures rules == Filter((r: FilterRule) => r.enabled, all)
    {
      var isEnabled := (r: FilterRule) => r.enabled;
      var enabled := [];
      for i := 0 to |all|
        invariant enabled == Filter(isEnabled, all[..i])
      {
        assert all[..i + 1] == all[..i] + [all[i]];
        FilterConcat(isEnabled, all[..i], [all[i]]);
        if all[i].enabled {
          enabled := enabled + [all[i]];
        }
      }
      assert all[..|all|] == all;
      rules := enabled;
    }

    /** The first rule that triggers decides; a nil engine never matches. */
    static method Match(re: RuleEngine?, glob: Glob, fields: FieldMap) returns (decision: Option<FilterRule>)
      ensures decision.None? <==> re == null || forall r :: r in re.rules ==> !Passes(glob, r.field, r.operator, r.value, fields)
      ensures decision.Some? ==> exists i :: DecidesAt(glob, re.rules, fields, i) && decision.value == re.rules[i]
    {
      if re == null || |re.rules| == 0 {
        return None;
      }
      forall r {
        TriggersMeaning(glob, r, fields);
      }
      for i := 0 to |re.rules|
        invariant forall j :: 0 <= j < i ==> !Triggers(glob, re.rules[j], fields)
      {
        var r := re.rules[i];
        if r.field !in fields {
          continue;
        }
        if MatchOperator(glob, r.operator, fields[r.field], r.value) {
          assert DecidesAt(glob, re.rules, fields, i);
          return Some(r);
        }
      }
      return None;
    }
  }

  // ----- retention rules -----

  datatype RetentionRule = RetentionRule(
    id: int, name: string, field: string, operator: string, value: string, ttlHours: Int64, enabled: bool)

  /** Go's zero RetentionRule, returned when nothing matches. */
  const NO_RULE := RetentionRule(0, "", "", "", "", 0, false)

  predicate Applies(glob: Glob, r: RetentionRule, fields: FieldMap) {
    r.field in fields && MatchOperator(glob, r.operator, fields[r.field], r.value)
  }

  lemma AppliesMeaning(glob: Glob, r: RetentionRule, fields: FieldMap)
    ensures Applies(glob, r, fields) <==> Passes(glob, r.field, r.operator, r.value, fields)
  {
  }

  function IsEnabled(): RetentionRule -> bool {
    (r: RetentionRule) => r.enabled
  }

  function Enabled(rules: seq<RetentionRule>): seq<RetentionRule> {
    Filter(IsEnabled(), rules)
  }

  /** `time.Duration(hours) * time.Hour` in int64. */
  function HoursToDuration(hours: int): (d: int)
    ensures MIN_INT64 <= d <= MAX_INT64
  {
    Wrap64(hours * HOUR)
  }

  const MAX_HOURS: int := 2562047

  /** The conversion is exact for at most 2562047 hours either way, and for no other number. */
  lemma HoursConversionIsExactIff(hours: int)
    requires MIN_INT64 <= hours <= MAX_INT64
    ensures HoursToDuration(hours) == hours * HOUR <==> -MAX_HOURS <= hours <= MAX_HOURS
  {
  }

  /** Within the bound a longer TTL in hours is a longer duration. */
  lemma HoursConversionKeepsOrder(a: int, b: int)
    requires -MAX_HOURS <= a <= MAX_HOURS && -MAX_HOURS <= b <= MAX_HOURS
    ensures a < b <==> HoursToDuration(a) < HoursToDuration(b)
  {
  }

  /** One hour past the bound a "keep for 292 years" rule turns into a negative TTL. */
  lemma HoursConversionWraps()
    ensures HoursToDuration(2562047) == 2562047 * 3600 * 1000000000 && HoursToDuration(2562048) < 0
  {
  }

  function MinHours(rules: seq<RetentionRule>): (h: int)
    requires rules != []
    ensures MIN_INT64 <= h <= MAX_INT64
  {
    var first: int := rules[0].ttlHours;
    if |rules| == 1 then first
    else
      var rest := MinHours(rules[1..]);
      if rest < first then rest else first
  }

  lemma {:induction false} MinHoursIsLeast(rules: seq<RetentionRule>)
    requires rules != []
    ensures exists r :: r in rules && r.ttlHours == MinHours(rules)
    ensures forall r :: r in rules ==> MinHours(rules) <= r.ttlHours
  {
    assert rules[0] in rules;
    if |rules| > 1 {
      MinHoursIsLeast(rules[1..]);
    }
  }

  lemma MinHoursUnique(rules: seq<RetentionRule>, h: int)
    requires rules != []
    requires exists r :: r in rules && r.ttlHours == h
    requires forall r :: r in rules ==> h <= r.ttlHours
    ensures h == MinHours(rules)
  {
    MinHoursIsLeast(rules);
  }

  /** The least TTL, in hours, among the rules that apply. */
  function ShortestHours(glob: Glob, rules: seq<RetentionRule>, fields: FieldMap): Option<int> {
    if rules == [] then None
    else
      var rest := ShortestHours(glob, rules[1..], fields);
      if !Applies(glob, rules[0], fields) then rest
      else if rest.Some? && rest.value < rules[0].ttlHours then rest
      else Some(rules[0].ttlHours)
  }

  ghost predicate IsShortest(glob: Glob, rules: seq<RetentionRule>, fields: FieldMap, h: int) {
    && (exists r :: r in rules && Applies(glob, r, fields) && r.ttlHours == h)
    && (forall r :: r in rules && Applies(glob, r, fields) ==> h <= r.ttlHours)
  }

  lemma {:induction false} ShortestHoursMeaning(glob: Glob, rules: seq<RetentionRule>, fields: FieldMap)
    ensures ShortestHours(glob, rules, fields).None? <==> forall r :: r in rules ==> !Applies(glob, r, fields)
    ensures ShortestHours(glob, rules, fields).Some? ==>
              IsShortest(glob, rules, fields, ShortestHours(glob, rules, fields).value)
  {
    if rules != [] {
      ShortestHoursMeaning(glob, rules[1..], fields);
      assert rules[0] in rules;
    }
  }

  /** The effective TTL depends only on which rules there are, not on their order or repetition. */
  lemma ShortestHoursIgnoresOrder(glob: Glob, a: seq<RetentionRule>, b: seq<RetentionRule>, fields: FieldMap)
    requires forall r :: r in a <==> r in b
    ensures ShortestHours(glob, a, fields) == ShortestHours(glob, b, fields)
  {
    ShortestHoursMeaning(glob, a, fields);
    ShortestHoursMeaning(glob, b, fields);
  }

  /** Inserting disabled rules anywhere in the configuration changes nothing. */
  lemma DisabledRulesAreInert(glob: Glob, a: seq<RetentionRule>, d: RetentionRule, b: seq<RetentionRule>, fields: FieldMap)
    requires !d.enabled
    ensures ShortestHours(glob, Enabled(a + [d] + b), fields) == ShortestHours(glob, Enabled(a + b), fields)
  {
    FilterConcat(IsEnabled(), a + [d], b);
    FilterConcat(IsEnabled(), a, [d]);
    FilterConcat(IsEnabled(), a, b);
    assert Enabled([d]) == [];
    assert Enabled(a) + [] == Enabled(a);
  }

  /** `MinTTL`, which looks at all rules, bounds what `Match` can choose from below. */
  lemma MinHoursBoundsShortest(glob: Glob, rules: seq<RetentionRule>, fields: FieldMap)
    requires ShortestHours(glob, rules, fields).Some?
    ensures rules != [] && MinHours(rules) <= ShortestHours(glob, rules, fields).value
  {
  }

  ghost predicate BestAt(glob: Glob, rules: seq<RetentionRule>, fields: FieldMap, i: int) {
    && 0 <= i < |rules| && Applies(glob, rules[i], fields)
    && (forall j :: 0 <= j < |rules| && Applies(glob, rules[j], fields) ==> rules[i].ttlHours <= rules[j].ttlHours)
    && (forall j :: 0 <= j < i && Applies(glob, rules[j], fields) ==> rules[i].ttlHours < rules[j].ttlHours)
  }

  class RetentionEngine {
    const rules: seq<RetentionRule>

    constructor (all: seq<RetentionRule>)
      ensures rules == Enabled(all)
    {
      var enabled := [];
      for i := 0 to |all|
        invariant enabled == Enabled(all[..i])
      {
        assert all[..i + 1] == all[..i] + [all[i]];
        FilterConcat(IsEnabled(), all[..i], [all[i]]);
        if all[i].enabled {
          enabled := enabled + [all[i]];
        }
      }
      assert all[..|all|] == all;
      rules := enabled;
    }

    static predicate HasRules(re: RetentionEngine?) {
      re != null && |re.rules| > 0
    }

    static method MinTTL(re: RetentionEngine?) returns (ttl: Duration)
      ensures ttl == if HasRules(re) then HoursToDuration(MinHours(re.rules)) else 0
    {
      if re == null || |re.rules| == 0 {
        return 0;
      }
      var minHours: int := re.rules[0].ttlHours;
      for i := 1 to |re.rules|
        invariant exists j :: 0 <= j < i && re.rules[j].ttlHours == minHours
        invariant forall j :: 0 <= j < i ==> minHours <= re.rules[j].ttlHours
      {
        if re.rules[i].ttlHours < minHours {
          minHours := re.rules[i].ttlHours;
        }
      }
      MinHoursUnique(re.rules, minHours);
      return HoursToDuration(minHours);
    }

    /** The earliest rule among the applicable ones of least TTL. */
    static method Match(re: RetentionEngine?, glob: Glob, fields: FieldMap) returns (best: RetentionRule, found: bool)
      ensures found ==> re != null && exists i :: BestAt(glob, re.rules, fields, i) && best == re.rules[i]
      ensures !found ==> best == RetentionRule(0, "", "", "", "", 0, false) && (re == null || forall r :: r in re.rules ==> !Applies(glob, r, fields))
      ensures found ==> Some(best.ttlHours as int) == ShortestHours(glob, re.rules, fields)
      ensures !found && re != null ==> ShortestHours(glob, re.rules, fields) == None
    {
      if re == null || |re.rules| == 0 {
        return NO_RULE, false;
      }
      best, found := NO_RULE, false;
      ghost var k := 0;
      for i := 0 to |re.rules|
        invariant !found ==> best == NO_RULE && forall j :: 0 <= j < i ==> !Applies(glob, re.rules[j], fields)
        invariant found ==> BestAt(glob, re.rules[..i], fields, k) && best == re.rules[k]
      {
        var r := re.rules[i];
        BestSoFar(glob, re.rules[..i], r, fields);
        assert re.rules[..i + 1] == re.rules[..i] + [r];
        if r.field !in fields {
          continue;
        }
        if MatchOperator(glob, r.operator, fields[r.field], r.value) {
          if !found || r.ttlHours < best.ttlHours {
            k := i;
            best := r;
            found := true;
          }
        }
      }
      assert re.rules[..|re.rules|] == re.rules;
      if found {
        BestIsShortest(glob, re.rules, fields, k);
      } else {
        ShortestHoursMeaning(glob, re.rules, fields);
      }
    }
  }

  /** How the best rule changes when one more rule is looked at. */
  lemma BestSoFar(glob: Glob, seen: seq<RetentionRule>, r: RetentionRule, fields: FieldMap)
    ensures forall k :: BestAt(glob, seen, fields, k) && !(Applies(glob, r, fields) && r.ttlHours < seen[k].ttlHours) ==>
                          BestAt(glob, seen + [r], fields, k)
    ensures forall k :: BestAt(glob, seen, fields, k) && Applies(glob, r, fields) && r.ttlHours < seen[k].ttlHours ==>
                          BestAt(glob, seen + [r], fields, |seen|)
    ensures (forall j :: 0 <= j < |seen| ==> !Applies(glob, seen[j], fields)) && Applies(glob, r, fields) ==>
              BestAt(glob, seen + [r], fields, |seen|)
  {
  }

  lemma BestIsShortest(glob: Glob, rules: seq<RetentionRule>, fields: FieldMap, i: int)
    requires BestAt(glob, rules, fields, i)
    ensures ShortestHours(glob, rules, fields) == Some(rules[i].ttlHours as int)
  {
    ShortestHoursMeaning(glob, rules, fields);
    assert rules[i] in rules;
  }
}
