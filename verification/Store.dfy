/** The store of sqlite/store.go: one mutable table, changed by statements that are atomic. */
module Store {
  import opened Types
  import opened Sequences
  import opened Rules
  import opened StatusCode
  import opened Codec
  import opened Table
  import opened Cleanup

  /** `DELETE ... WHERE created_at < ?` */
  function NotOlderThan(cutoff: Time): Row -> bool {
    (row: Row) => row.createdAt >= cutoff
  }

  function OlderThan(cutoff: Time): Row -> bool {
    (row: Row) => row.createdAt < cutoff
  }

  function Doomed(glob: Glob, p: Pass): Row -> bool {
    (row: Row) => IsDoomed(glob, p, row)
  }

  function Removed(glob: Glob, p: Pass): Row -> bool {
    (row: Row) => Removes(glob, p, row)
  }

  function Survives(glob: Glob, p: Pass): Row -> bool {
    (row: Row) => !Removes(glob, p, row)
  }

  function IdsOf(rows: seq<Row>): seq<string> {
    seq(|rows|, i requires 0 <= i < |rows| => rows[i].requestId)
  }

  function FirstFault(rows: seq<Row>): Option<ScanFault> {
    if rows == [] then None
    else if RowFields(rows[0]).Err? then Some(RowFields(rows[0]).error)
    else FirstFault(rows[1..])
  }

  /** The rows a pass decides to delete, or the fault that ended its scan. */
  function ScanResult(glob: Glob, p: Pass, rows: seq<Row>): Result<seq<Row>, ScanFault>
    requires p.rules != []
  {
    var candidates := Filter(OlderThan(p.t1 + Negated(PrefilterTtl(p.rules, p.defaultTtl))), rows);
    match FirstFault(candidates)
    case Some(fault) => Err(fault)
    case None => Ok(Filter(Doomed(glob, p), candidates))
  }

  function DoomedIds(glob: Glob, p: Pass, rows: seq<Row>): seq<string> {
    IdsOf(Filter(Doomed(glob, p), rows))
  }

  lemma DoomedIdsSnoc(glob: Glob, p: Pass, rows: seq<Row>, row: Row)
    ensures DoomedIds(glob, p, rows + [row]) ==
            DoomedIds(glob, p, rows) + if IsDoomed(glob, p, row) then [row.requestId] else []
  {
    FilterConcat(Doomed(glob, p), rows, [row]);
    assert Filter(Doomed(glob, p), [row]) == if IsDoomed(glob, p, row) then [row] else [];
  }

  function NotAmong(ids: seq<string>): Row -> bool {
    (row: Row) => row.requestId !in ids
  }

  /** A scan that succeeds lists exactly the rows the pass removes. */
  lemma ScanListsTheRemoved(glob: Glob, p: Pass, rows: seq<Row>)
    requires p.rules != [] && ScanResult(glob, p, rows).Ok?
    ensures ScanResult(glob, p, rows).value == Filter(Removed(glob, p), rows)
  {
    var cutoff := p.t1 + Negated(PrefilterTtl(p.rules, p.defaultTtl));
    FilterTwice(OlderThan(cutoff), Doomed(glob, p), Removed(glob, p), rows);
  }

  /** Deleting the listed IDs leaves exactly the surviving rows. */
  lemma RemovingListedLeavesSurvivors(glob: Glob, p: Pass, rows: seq<Row>)
    requires UniqueIds(rows)
    ensures Filter(NotAmong(IdsOf(Filter(Removed(glob, p), rows))), rows) == Filter(Survives(glob, p), rows)
  {
    var gone := Filter(Removed(glob, p), rows);
    forall row | row in rows
      ensures row.requestId in IdsOf(gone) <==> Removes(glob, p, row)
    {
      FilterMember(Removed(glob, p), rows, row);
      if row.requestId in IdsOf(gone) {
        var i :| 0 <= i < |gone| && gone[i].requestId == row.requestId;
        FilterMember(Removed(glob, p), rows, gone[i]);
        SameIdSameRow(rows, row, gone[i]);
      }
      if Removes(glob, p, row) {
        var i :| 0 <= i < |gone| && gone[i] == row;
        assert IdsOf(gone)[i] == row.requestId;
      }
    }
    FilterSame(NotAmong(IdsOf(gone)), Survives(glob, p), rows);
  }

  lemma SameIdSameRow(rows: seq<Row>, a: Row, b: Row)
    requires UniqueIds(rows) && a in rows && b in rows && a.requestId == b.requestId
    ensures a == b
  {
  }

  class Store {
    var rows: seq<Row>
    var hasCallback: bool
    /** The summaries handed to the promote callback, oldest first. */
    var fired: seq<TraceSummary>

    ghost predicate Valid()
      reads this
    {
      UniqueIds(rows)
    }

    constructor ()
      ensures Valid() && rows == [] && !hasCallback && fired == []
    {
      rows, hasCallback, fired := [], false, [];
    }

    method SetOnPromote()
      modifies this`hasCallback
      ensures hasCallback
    {
      hasCallback := true;
    }

    method PromoteAt(t: Trace, createdAt: Time) returns (r: Result<(), StoreError>)
      requires Valid()
      modifies this`rows, this`fired
      ensures Valid()
      ensures rows == InsertOrIgnore(old(rows), EncodeRow(t, createdAt))
      ensures r == if HasId(old(rows), t.requestId) then Err(DuplicateTrace) else Ok(())
      ensures fired == old(fired) + if r.Ok? && hasCallback then [CallbackSummary(t, createdAt)] else []
      ensures r.Ok? ==> ReadsBack(rows, t, createdAt) && IsReport(CallbackSummary(t, createdAt), t, createdAt)
    {
      PromoteThenLookup(rows, t, createdAt);
      var tags: Option<Tags> := None;
      if t.tags.Some? && t.tags.value != map[] {
        tags := t.tags;
      }
      var requestBody, responseBody: Option<Bytes> := None, None;
      if t.requestBody != [] {
        requestBody := Some(t.requestBody);
      }
      if t.responseBody != [] {
        responseBody := Some(t.responseBody);
      }
      var entries := MarshalEntries(t.entries);
      var parentId := NullableString(t.parentRequestId);
      var startedAt: Option<Time> := None;
      if t.startedAt != ZERO_TIME {
        startedAt := Some(t.startedAt);
      }
      var durationMs: Option<Int64> := None;
      if t.duration > 0 {
        durationMs := Some(t.duration / MILLISECOND);
      }
      var row := Row(t.requestId, parentId, t.errorChain, t.statusCode, t.route, t.verb, Some(t.userAgent),
                     Some(t.remoteIp), Some(t.userId), entries, tags, requestBody, responseBody,
                     NullableString(t.kind), NullableString(t.operationName), NullableString(t.originRequestId),
                     NullableString(t.status), startedAt, durationMs, createdAt);
      assert row == EncodeRow(t, createdAt);
      InsertKeepsUnique(rows, row);
      var before := |rows|;
      rows := InsertOrIgnore(rows, row);
      if |rows| == before {
        return Err(DuplicateTrace);
      }
      if hasCallback {
        fired := fired + [TraceSummary(t.requestId, t.parentRequestId, t.errorChain, t.statusCode, t.route, t.verb,
                                       t.remoteIp, t.userId, t.tags, createdAt, t.kind, t.operationId,
                                       t.operationName, t.originRequestId, t.status, t.startedAt, t.duration)];
      }
      return Ok(());
    }

    method Get(id: string) returns (r: Result<Option<Trace>, StoreError>)
      ensures r == Lookup(rows, id)
    {
      var row := FindRow(rows, id);
      if row.None? {
        return Ok(None);
      }
      var t := ScanTrace(row.value);
      match t
      case Ok(v) => return Ok(Some(v));
      case Err(e) => return Err(e);
    }

    /** Runs the DELETE for one ID; the result is the number of rows affected. */
    method DeleteById(id: string) returns (n: nat)
      requires Valid()
      modifies this`rows
      ensures Valid() && rows == RemoveId(old(rows), id)
      ensures n == |old(rows)| - |rows| == (if HasId(old(rows), id) then 1 else 0)
    {
      RemoveIdEffect(rows, id);
      var before := |rows|;
      rows := RemoveId(rows, id);
      n := before - |rows|;
    }

    method DeleteTrace(id: string)
      requires Valid()
      modifies this`rows
      ensures Valid() && rows == RemoveId(old(rows), id)
    {
      var _ := DeleteById(id);
    }

    method DeleteOlderThan(cutoff: Time) returns (n: nat)
      requires Valid()
      modifies this`rows
      ensures Valid() && rows == Filter(NotOlderThan(cutoff), old(rows))
      ensures n == |old(rows)| - |rows|
    {
      FilterKeepsUnique(NotOlderThan(cutoff), rows);
      FilterSplits(NotOlderThan(cutoff), OlderThan(cutoff), rows);
      var before := |rows|;
      rows := Filter(NotOlderThan(cutoff), rows);
      n := before - |rows|;
    }

    /** The loop body of the scan: is this candidate to be deleted? */
    static method ScanRow(glob: Glob, engine: RetentionEngine, defaultTtl: Duration, t2: Time, row: Row, ghost p: Pass)
      returns (r: Result<bool, ScanFault>)
      requires p.rules == engine.rules && p.defaultTtl == defaultTtl && p.t2 == t2
      ensures if RowFields(row).Err? then r == Err(RowFields(row).error) else r == Ok(IsDoomed(glob, p, row))
    {
      if row.userAgent.None? || row.remoteIp.None? || row.userId.None? {
        return Err(ScanError);
      }
      var code := StatusCodeStr(row.statusCode);
      if code.None? {
        return Err(PrinterPanic);
      }
      var fields := map["remote_ip" := row.remoteIp.value, "route" := row.route, "status_code" := code.value,
                        "method" := row.verb, "user_agent" := row.userAgent.value, "user_id" := row.userId.value];
      assert RowFields(row) == Ok(fields);
      var effectiveTtl: int := defaultTtl;
      var rule, matched := RetentionEngine.Match(engine, glob, fields);
      if matched {
        effectiveTtl := HoursToDuration(rule.ttlHours);
      }
      return Ok(Saturate64(t2 - row.createdAt) > effectiveTtl);
    }

    /** The scan loop: the IDs to delete among the candidates, or the first fault. */
    static method ScanRows(glob: Glob, engine: RetentionEngine, defaultTtl: Duration, t2: Time, candidates: seq<Row>, ghost p: Pass)
      returns (r: Result<seq<string>, ScanFault>)
      requires p.rules == engine.rules && p.defaultTtl == defaultTtl && p.t2 == t2
      ensures match FirstFault(candidates)
              case Some(fault) => r == Err(fault)
              case None => r == Ok(DoomedIds(glob, p, candidates))
    {
      var toDelete: seq<string> := [];
      assert candidates[0..] == candidates;
      for i := 0 to |candidates|
        invariant FirstFault(candidates) == FirstFault(candidates[i..])
        invariant toDelete == DoomedIds(glob, p, candidates[..i])
      {
        var row := candidates[i];
        assert candidates[i..][0] == row && candidates[i..][1..] == candidates[i + 1..];
        assert candidates[..i + 1] == candidates[..i] + [row];
        DoomedIdsSnoc(glob, p, candidates[..i], row);
        var due := ScanRow(glob, engine, defaultTtl, t2, row, p);
        if due.Err? {
          return Err(due.error);
        }
        if due.value {
          toDelete := toDelete + [row.requestId];
        }
      }
      assert candidates[..|candidates|] == candidates;
      return Ok(toDelete);
    }

    /** The first phase of a pass: query the candidates and list the IDs to delete. */
    method ScanCandidates(glob: Glob, engine: RetentionEngine, defaultTtl: Duration, t1: Time, t2: Time)
      returns (r: Result<seq<string>, ScanFault>)
      requires RetentionEngine.HasRules(engine)
      ensures var scan := ScanResult(glob, Pass(engine.rules, defaultTtl, t1, t2), rows);
              if scan.Ok? then r == Ok(IdsOf(scan.value)) else r == Err(scan.error)
    {
      var minTtl: int := defaultTtl;
      var rt := RetentionEngine.MinTTL(engine);
      if 0 < rt < minTtl {
        minTtl := rt;
      }
      var candidates := Filter(OlderThan(t1 + Negated(minTtl)), rows);
      r := ScanRows(glob, engine, defaultTtl, t2, candidates, Pass(engine.rules, defaultTtl, t1, t2));
    }

    /** The second phase: one DELETE for each listed ID. */
    method DeleteAll(toDelete: seq<string>) returns (deleted: nat)
      requires Valid()
      modifies this`rows
      ensures Valid() && rows == Filter(NotAmong(toDelete), old(rows))
      ensures deleted == |old(rows)| - |rows|
    {
      ghost var was := rows;
      deleted := 0;
      FilterAll(NotAmong([]), was);
      for i := 0 to |toDelete|
        invariant Valid() && rows == Filter(NotAmong(toDelete[..i]), was)
        invariant deleted == |was| - |rows|
      {
        assert toDelete[..i + 1] == toDelete[..i] + [toDelete[i]];
        FilterTwice(NotAmong(toDelete[..i]), WithoutId(toDelete[i]), NotAmong(toDelete[..i + 1]), was);
        var n := DeleteById(toDelete[i]);
        deleted := deleted + n;
      }
      assert toDelete[..|toDelete|] == toDelete;
    }

    /** One pass without interference: what is left, and how many rows were deleted. A faulty
        candidate stops the pass before it deletes anything. */
    method RunCleanupWithEngine(glob: Glob, engine: RetentionEngine?, defaultTtl: Duration, t1: Time, t2: Time)
      returns (r: Result<nat, ScanFault>)
      requires Valid()
      modifies this`rows
      ensures Valid()
      ensures var p := Pass(if engine == null then [] else engine.rules, defaultTtl, t1, t2);
              if p.rules != [] && ScanResult(glob, p, old(rows)).Err?
              then rows == old(rows) && r == Err(ScanResult(glob, p, old(rows)).error)
              else rows == Filter(Survives(glob, p), old(rows)) && r == Ok(|old(rows)| - |rows|)
    {
      ghost var was := rows;
      if engine == null || !RetentionEngine.HasRules(engine) {
        var cutoff := t1 + Negated(defaultTtl);
        var n := DeleteOlderThan(cutoff);
        FilterSame(NotOlderThan(cutoff), Survives(glob, Pass([], defaultTtl, t1, t2)), was);
        return Ok(n);
      }
      ghost var p := Pass(engine.rules, defaultTtl, t1, t2);
      var scan := ScanCandidates(glob, engine, defaultTtl, t1, t2);
      if scan.Err? {
        return Err(scan.error);
      }
      var deleted := DeleteAll(scan.value);
      ScanListsTheRemoved(glob, p, was);
      RemovingListedLeavesSurvivors(glob, p, was);
      return Ok(deleted);
    }

    /** `RunCleanup`, with the rule table as a parameter. */
    method RunCleanup(glob: Glob, ruleTable: seq<RetentionRule>, defaultTtl: Duration, t1: Time, t2: Time)
      returns (r: Result<nat, ScanFault>)
      requires Valid()
      modifies this`rows
      ensures Valid()
      ensures var p := Pass(Enabled(ruleTable), defaultTtl, t1, t2);
              if p.rules != [] && ScanResult(glob, p, old(rows)).Err?
              then rows == old(rows) && r == Err(ScanResult(glob, p, old(rows)).error)
              else rows == Filter(Survives(glob, p), old(rows)) && r == Ok(|old(rows)| - |rows|)
    {
      var engine := new RetentionEngine(ruleTable);
      r := RunCleanupWithEngine(glob, engine, defaultTtl, t1, t2);
    }
  }

  /** A whole table, cleaned once with rules of at least one hour: of the readable rows, everything
      expired at the first clock read is gone and only rows expired at the second are gone. */
  lemma CleanupRefinesTheRule(glob: Glob, p: Pass, rows: seq<Row>, row: Row)
    requires InRange(p.rules) && p.t1 <= p.t2 && row in rows && RowFields(row).Ok?
    ensures row !in Filter(Survives(glob, p), rows) ==> Expired(glob, p, row, p.t2)
    ensures Expired(glob, p, row, p.t1) && MIN_INT64 < p.defaultTtl < MAX_INT64 && (p.rules == [] || MinHours(p.rules) >= 1) ==>
              row !in Filter(Survives(glob, p), rows)
  {
    FilterMember(Survives(glob, p), rows, row);
    if Removes(glob, p, row) {
      RemovesOnlyExpired(glob, p, row);
    }
    if p.rules == [] {
      NoRulesIsExactIff(glob, p, row);
    } else if MIN_INT64 < p.defaultTtl < MAX_INT64 && MinHours(p.rules) >= 1 {
      InTimeIffTtlsPositive(glob, p, row);
      assert p.(t1 := p.t1, t2 := p.t2) == p;
    }
  }
}
