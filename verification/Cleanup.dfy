/** Which rows a cleanup pass removes, against the rule "a trace dies when its age exceeds the
    shortest matching TTL, or the default TTL when nothing matches". */
module Cleanup {
  import opened Types
  import opened Text
  import opened StatusCode
  import opened Rules
  import opened Codec

  /** Why a pass stops while it scans its candidates. */
  datatype ScanFault = ScanError | PrinterPanic

  /** The settings and clock reads of one pass: t1 for the prefilter, t2 for the ages. */
  datatype Pass = Pass(rules: seq<RetentionRule>, defaultTtl: Duration, t1: Time, t2: Time)

  /** The field map built while scanning a candidate. */
  function RowFields(row: Row): Result<FieldMap, ScanFault> {
    if row.userAgent.None? || row.remoteIp.None? || row.userId.None? then Err(ScanError)
    else
      match StatusText(row.statusCode)
      case None => Err(PrinterPanic)
      case Some(code) =>
        Ok(map["remote_ip" := row.remoteIp.value, "route" := row.route, "status_code" := code,
               "method" := row.verb, "user_agent" := row.userAgent.value, "user_id" := row.userId.value])
  }

  /** For a stored trace, the scan's field map is the one `TraceFields` gives for the trace, both
      before storing and after loading. */
  lemma ScanSeesTheTraceFields(t: Trace, at: Time)
    ensures TraceFields(t).Some? <==> RowFields(EncodeRow(t, at)).Ok?
    ensures TraceFields(t).Some? ==> RowFields(EncodeRow(t, at)) == Ok(TraceFields(t).value)
    ensures TraceFields(Normalise(t, at)) == TraceFields(t)
  {
    PrinterIsExact(t.statusCode);
  }

  /** Which column a rule's field names, for a stored trace. */
  lemma FieldsOfStored(t: Trace, at: Time)
    requires RowFields(EncodeRow(t, at)).Ok?
    ensures var fields := RowFields(EncodeRow(t, at)).value;
            && fields.Keys == {"remote_ip", "route", "status_code", "method", "user_agent", "user_id"}
            && fields["remote_ip"] == t.remoteIp && fields["route"] == t.route && fields["method"] == t.verb
            && fields["user_agent"] == t.userAgent && fields["user_id"] == t.userId
            && (t.statusCode != MIN_INT64 ==> ParseInt(fields["status_code"]) == t.statusCode)
  {
    PrinterIsExact(t.statusCode);
  }

  // ----- the code's arithmetic -----

  function Negated(d: int): int {
    Wrap64(-d)
  }

  /** The TTL of the candidate prefilter: the least rule TTL, when it is positive and below the default. */
  function PrefilterTtl(rules: seq<RetentionRule>, defaultTtl: Duration): (ttl: int)
    requires rules != []
    ensures MIN_INT64 <= ttl <= defaultTtl
  {
    var least := HoursToDuration(MinHours(rules));
    if 0 < least < defaultTtl then least else defaultTtl
  }

  function EffectiveTtl(glob: Glob, p: Pass, fields: FieldMap): int {
    match ShortestHours(glob, p.rules, fields)
    case None => p.defaultTtl
    case Some(h) => HoursToDuration(h)
  }

  predicate IsCandidate(p: Pass, row: Row)
    requires p.rules != []
  {
    row.createdAt < p.t1 + Negated(PrefilterTtl(p.rules, p.defaultTtl))
  }

  /** Does the scan put this candidate on the list of rows to delete? */
  predicate IsDoomed(glob: Glob, p: Pass, row: Row) {
    && RowFields(row).Ok?
    && Saturate64(p.t2 - row.createdAt) > EffectiveTtl(glob, p, RowFields(row).value)
  }

  /** Does the pass, run without interference, remove the row? Without rules it is a single
      DELETE with one clock read. */
  predicate Removes(glob: Glob, p: Pass, row: Row) {
    if p.rules == [] then row.createdAt < p.t1 + Negated(p.defaultTtl)
    else IsCandidate(p, row) && IsDoomed(glob, p, row)
  }

  // ----- the rule -----

  /** The TTL the rule promises, in unbounded arithmetic. */
  function PromisedTtl(glob: Glob, p: Pass, fields: FieldMap): int {
    match ShortestHours(glob, p.rules, fields)
    case None => p.defaultTtl
    case Some(h) => h * HOUR
  }

  predicate Expired(glob: Glob, p: Pass, row: Row, now: Time)
    requires RowFields(row).Ok?
  {
    now - row.createdAt > PromisedTtl(glob, p, RowFields(row).value)
  }

  // ----- how far the two agree -----

  /** The age below which the prefilter drops a row. */
  function PrefilterAge(p: Pass): int {
    -Negated(if p.rules == [] then p.defaultTtl else PrefilterTtl(p.rules, p.defaultTtl))
  }

  predicate InRange(rules: seq<RetentionRule>) {
    forall i :: 0 <= i < |rules| ==> -MAX_HOURS <= rules[i].ttlHours <= MAX_HOURS
  }

  /** Whenever the clock is read, the row is removed if it was expired at the first read. */
  ghost predicate AlwaysInTime(glob: Glob, p: Pass, row: Row)
    requires RowFields(row).Ok?
  {
    forall t1, t2 :: t1 <= t2 && Expired(glob, p, row, t1) ==> Removes(glob, p.(t1 := t1, t2 := t2), row)
  }

  /** Whenever the clock is read, the row is removed only if it was expired at the second read. */
  ghost predicate NeverTooEarly(glob: Glob, p: Pass, row: Row)
    requires RowFields(row).Ok?
  {
    forall t1, t2 :: t1 <= t2 && Removes(glob, p.(t1 := t1, t2 := t2), row) ==> Expired(glob, p, row, t2)
  }

  /** The hours of the rule that decides about the row, if one applies. */
  function RuleHours(glob: Glob, p: Pass, row: Row): Option<int>
    requires RowFields(row).Ok?
  {
    ShortestHours(glob, p.rules, RowFields(row).value)
  }

  /** For every rule set and every default: expired rows always go exactly when the prefilter keeps
      the row no longer than promised, the deciding rule's TTL is not below the hours that fit in
      int64, and a row without a rule does not have the greatest int64 as its TTL. */
  lemma InTimeIff(glob: Glob, p: Pass, row: Row)
    requires p.rules != [] && RowFields(row).Ok?
    ensures AlwaysInTime(glob, p, row) <==>
            (var hours := RuleHours(glob, p, row);
             && PrefilterAge(p) <= PromisedTtl(glob, p, RowFields(row).value)
             && (if hours.Some? then -MAX_HOURS <= hours.value else p.defaultTtl < MAX_INT64))
  {
    var promised := PromisedTtl(glob, p, RowFields(row).value);
    RemovesByAgeAt(glob, p, row);
    EffectiveAgainstPromised(glob, p, row);
    if AlwaysInTime(glob, p, row) {
      var t := row.createdAt + promised + 1;
      assert Expired(glob, p, row, t);
      assert Removes(glob, p.(t1 := t, t2 := t), row);
    }
  }

  /** For every rule set and every default: rows never go too early exactly when no rule decides, or
      one with at most the hours that fit in int64. */
  lemma NotTooEarlyIff(glob: Glob, p: Pass, row: Row)
    requires p.rules != [] && RowFields(row).Ok?
    ensures NeverTooEarly(glob, p, row) <==>
            (RuleHours(glob, p, row).Some? ==> RuleHours(glob, p, row).value <= MAX_HOURS)
  {
    var fields := RowFields(row).value;
    var promised, effective := PromisedTtl(glob, p, fields), EffectiveTtl(glob, p, fields);
    RemovesByAgeAt(glob, p, row);
    EffectiveAgainstPromised(glob, p, row);
    if NeverTooEarly(glob, p, row) {
      var least := if PrefilterAge(p) > effective then PrefilterAge(p) else effective;
      var t := row.createdAt + least + 1;
      assert effective < MAX_INT64 ==> Removes(glob, p.(t1 := t, t2 := t), row);
    }
  }

  /** How the effective TTL can differ from the promised one. A wrapped TTL is never at the top of
      int64, since an hour is an even number of nanoseconds. */
  lemma EffectiveAgainstPromised(glob: Glob, p: Pass, row: Row)
    requires p.rules != [] && RowFields(row).Ok?
    ensures var fields := RowFields(row).value;
            var promised, effective := PromisedTtl(glob, p, fields), EffectiveTtl(glob, p, fields);
            match RuleHours(glob, p, row)
            case None => effective == promised
            case Some(h) =>
              && effective < MAX_INT64
              && (effective <= promised <==> -MAX_HOURS <= h)
              && (promised <= effective <==> h <= MAX_HOURS)
              && (h > MAX_HOURS ==> promised > PrefilterAge(p))
  {
    var hours := RuleHours(glob, p, row);
    if hours.Some? {
      WrappedHours(hours.value);
    }
  }

  lemma WrappedHours(h: int)
    ensures HoursToDuration(h) < MAX_INT64
    ensures HoursToDuration(h) <= h * HOUR <==> -MAX_HOURS <= h
    ensures h * HOUR <= HoursToDuration(h) <==> h <= MAX_HOURS
  {
  }

  /** A row is removed when it is older than the prefilter age at t1 and older than the effective
      TTL at t2; saturation matters only for the TTL at the top of int64. */
  lemma RemovesByAge(glob: Glob, p: Pass, row: Row)
    requires p.rules != [] && RowFields(row).Ok?
    ensures Removes(glob, p, row) <==>
            (var effective := EffectiveTtl(glob, p, RowFields(row).value);
             && p.t1 - row.createdAt > PrefilterAge(p)
             && p.t2 - row.createdAt > effective && effective < MAX_INT64)
  {
  }

  lemma RemovesByAgeAt(glob: Glob, p: Pass, row: Row)
    requires p.rules != [] && RowFields(row).Ok?
    ensures forall t1, t2 :: Removes(glob, p.(t1 := t1, t2 := t2), row) <==>
                             (var effective := EffectiveTtl(glob, p, RowFields(row).value);
                              && t1 - row.createdAt > PrefilterAge(p)
                              && t2 - row.createdAt > effective && effective < MAX_INT64)
  {
  }

  /** With int64-safe rules the pass never removes a row before its time, whatever the default TTL. */
  lemma RemovesOnlyExpired(glob: Glob, p: Pass, row: Row)
    requires InRange(p.rules) && p.t1 <= p.t2 && RowFields(row).Ok?
    requires Removes(glob, p, row)
    ensures Expired(glob, p, row, p.t2)
  {
    if p.rules != [] {
      EffectiveIsPromised(glob, p, RowFields(row).value);
    }
  }

  lemma EffectiveIsPromised(glob: Glob, p: Pass, fields: FieldMap)
    requires InRange(p.rules)
    ensures EffectiveTtl(glob, p, fields) == PromisedTtl(glob, p, fields)
    ensures p.defaultTtl < MAX_INT64 ==> EffectiveTtl(glob, p, fields) < MAX_INT64
    ensures PromisedTtl(glob, p, fields) == p.defaultTtl ||
            (p.rules != [] && PromisedTtl(glob, p, fields) >= MinHours(p.rules) * HOUR)
    ensures ShortestHours(glob, p.rules, fields).Some? ==>
              -MAX_HOURS <= MinHours(p.rules) <= ShortestHours(glob, p.rules, fields).value <= MAX_HOURS
  {
    ShortestHoursMeaning(glob, p.rules, fields);
    match ShortestHours(glob, p.rules, fields)
    case None =>
    case Some(h) =>
      var r :| r in p.rules && r.ttlHours == h;
      HoursConversionIsExactIff(h);
      MinHoursBoundsShortest(glob, p.rules, fields);
      MinHoursIsLeast(p.rules);
  }

  lemma PrefilterAgeInRange(p: Pass)
    requires p.rules != [] && InRange(p.rules) && MIN_INT64 < p.defaultTtl
    ensures -MAX_HOURS <= MinHours(p.rules) <= MAX_HOURS
    ensures PrefilterAge(p) == if 0 < MinHours(p.rules) * HOUR < p.defaultTtl then MinHours(p.rules) * HOUR else p.defaultTtl
  {
    MinHoursIsLeast(p.rules);
    var r :| r in p.rules && r.ttlHours == MinHours(p.rules);
    HoursConversionIsExactIff(MinHours(p.rules));
  }

  /** With int64-safe rules and default: expired rows always go exactly when every rule keeps traces
      for at least an hour, or the row cannot expire before the default TTL anyway. A TTL of zero or
      less switches the tightened prefilter off. */
  lemma InTimeIffTtlsPositive(glob: Glob, p: Pass, row: Row)
    requires p.rules != [] && InRange(p.rules) && RowFields(row).Ok?
    requires MIN_INT64 < p.defaultTtl < MAX_INT64
    ensures AlwaysInTime(glob, p, row) <==> MinHours(p.rules) >= 1 || p.defaultTtl <= PromisedTtl(glob, p, RowFields(row).value)
  {
    EffectiveIsPromised(glob, p, RowFields(row).value);
    PrefilterWithin(p, PromisedTtl(glob, p, RowFields(row).value));
    InTimeIff(glob, p, row);
  }

  lemma PrefilterWithin(p: Pass, promised: int)
    requires p.rules != [] && InRange(p.rules) && MIN_INT64 < p.defaultTtl
    requires promised == p.defaultTtl || promised >= MinHours(p.rules) * HOUR
    ensures PrefilterAge(p) <= promised <==> MinHours(p.rules) >= 1 || p.defaultTtl <= promised
  {
    PrefilterAgeInRange(p);
  }

  /** Without rules the single DELETE is the rule itself, except at the least int64, whose negation
      wraps. */
  lemma NoRulesIsExactIff(glob: Glob, p: Pass, row: Row)
    requires p.rules == [] && RowFields(row).Ok?
    ensures p.defaultTtl != MIN_INT64 ==> (Removes(glob, p, row) <==> Expired(glob, p, row, p.t1))
    ensures (forall t1 :: Removes(glob, p.(t1 := t1), row) <==> Expired(glob, p, row, t1)) <==> p.defaultTtl != MIN_INT64
  {
    if p.defaultTtl == MIN_INT64 {
      assert !Removes(glob, p.(t1 := row.createdAt), row) && Expired(glob, p, row, row.createdAt);
    }
  }

  /** A rule "keep /api for an hour" at work: of two hours' age, a trace of /api/users goes and one of
      /home stays, under a default of a day. */
  lemma RouteRuleDecides(glob: Glob, t: Trace)
    requires TraceFields(t).Some?
    ensures var p := Pass([RetentionRule(1, "", "route", "contains", "/api", 1, true)], 24 * HOUR, 2 * HOUR, 2 * HOUR);
            && (t.route == "/api/users" ==> Removes(glob, p, EncodeRow(t, 0)))
            && (t.route == "/home" ==> !Removes(glob, p, EncodeRow(t, 0)))
  {
    ScanSeesTheTraceFields(t, 0);
    FieldsOfStored(t, 0);
    var rule := RetentionRule(1, "", "route", "contains", "/api", 1, true);
    var p := Pass([rule], 24 * HOUR, 2 * HOUR, 2 * HOUR);
    var row := EncodeRow(t, 0);
    var fields := RowFields(row).value;
    OneRuleApplies(glob, rule, fields);
    HoursConversionIsExactIff(1);
    RemovesByAge(glob, p, row);
    assert t.route == "/api/users" ==> OccursAt(t.route, "/api", 0);
    assert t.route == "/home" ==> !OccursAt(t.route, "/api", 0) && !OccursAt(t.route, "/api", 1) by {
      assert "/home"[1] == 'h' && "/home"[1..5][0] == 'h' && "/home"[0..4][1] == 'h';
    }
  }

  lemma OneRuleApplies(glob: Glob, rule: RetentionRule, fields: FieldMap)
    ensures MinHours([rule]) == rule.ttlHours
    ensures Passes(glob, rule.field, rule.operator, rule.value, fields) ==> ShortestHours(glob, [rule], fields) == Some(rule.ttlHours as int)
    ensures !Passes(glob, rule.field, rule.operator, rule.value, fields) ==> ShortestHours(glob, [rule], fields) == None
  {
    AppliesMeaning(glob, rule, fields);
    assert ShortestHours(glob, [rule][1..], fields) == None;
  }

  /** A default TTL at the top of int64 is never exceeded by a saturated age, and one at the bottom is
      its own negation, which puts the cutoff 292 years back. */
  lemma DefaultTtlEdgeCases(glob: Glob, row: Row, rule: RetentionRule, t: Time)
    requires RowFields(row).Ok? && row.createdAt == 0 && !Applies(glob, rule, RowFields(row).value)
    ensures var p := Pass([rule], MAX_INT64, t, t);
            !Removes(glob, p, row) && (t > MAX_INT64 ==> Expired(glob, p, row, t))
    ensures var p := Pass([], MIN_INT64, 0, 0);
            !Removes(glob, p, row) && Expired(glob, p, row, 0)
  {
    assert ShortestHours(glob, [rule][1..], RowFields(row).value) == None;
    assert ShortestHours(glob, [rule], RowFields(row).value) == None;
  }

  /** The two failures in the small. A rule "expire at once" never fires before the default TTL, and
      a rule "keep 2562048 hours" makes a day-old trace expire. */
  lemma TtlEdgeCases(glob: Glob, row: Row)
    requires RowFields(row).Ok? && row.verb == "GET" && row.createdAt == 0
    ensures var rule := RetentionRule(1, "", "method", "equals", "GET", 0, true);
            var p := Pass([rule], 24 * HOUR, HOUR, HOUR);
            Expired(glob, p, row, HOUR) && !Removes(glob, p, row)
    ensures var rule := RetentionRule(1, "", "method", "equals", "GET", MAX_HOURS + 1, true);
            var p := Pass([rule], 24 * HOUR, 25 * HOUR, 25 * HOUR);
            !Expired(glob, p, row, 25 * HOUR) && Removes(glob, p, row)
  {
    var at := RetentionRule(1, "", "method", "equals", "GET", 0, true);
    var keep := RetentionRule(1, "", "method", "equals", "GET", MAX_HOURS + 1, true);
    var fields := RowFields(row).value;
    assert fields["method"] == "GET";
    assert ShortestHours(glob, [at][1..], fields) == None && ShortestHours(glob, [keep][1..], fields) == None;
    assert ShortestHours(glob, [at], fields) == Some(0);
    assert ShortestHours(glob, [keep], fields) == Some(MAX_HOURS + 1);
  }
}
