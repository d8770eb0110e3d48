/** How a trace becomes a row and a row becomes a trace again (`promoteAt`, `Get`, `ListTraces`). */
module Codec {
  import opened Types

  /** Scanning NULL into a Go string fails. */
  datatype StoreError = NullColumn | DuplicateTrace

  function NullableString(s: string): Option<string> {
    if s == "" then None else Some(s)
  }

  function OrEmpty(s: Option<string>): string {
    match s
    case None => ""
    case Some(v) => v
  }

  // ----- writing -----

  /** `omitempty` drops an empty attribute map from the JSON of an entry. */
  function StoredEntry(e: Entry): Entry {
    if e.attrs == Some(map[]) then e.(attrs := None) else e
  }

  function StoredEntries(entries: seq<Entry>): seq<Entry> {
    seq(|entries|, i requires 0 <= i < |entries| => StoredEntry(entries[i]))
  }

  /** What `json.Marshal` keeps of the entries. */
  method MarshalEntries(entries: seq<Entry>) returns (stored: seq<Entry>)
    ensures stored == StoredEntries(entries)
  {
    stored := [];
    for i := 0 to |entries|
      invariant stored == StoredEntries(entries[..i])
    {
      assert entries[..i + 1] == entries[..i] + [entries[i]];
      if entries[i].attrs == Some(map[]) {
        stored := stored + [entries[i].(attrs := None)];
      } else {
        stored := stored + [entries[i]];
      }
    }
    assert entries[..|entries|] == entries;
  }

  lemma StoringEntriesTwice(entries: seq<Entry>)
    ensures StoredEntries(StoredEntries(entries)) == StoredEntries(entries)
  {
  }

  /** The row that `promoteAt` inserts. */
  function EncodeRow(t: Trace, at: Time): Row {
    Row(t.requestId, NullableString(t.parentRequestId), t.errorChain, t.statusCode, t.route, t.verb,
        Some(t.userAgent), Some(t.remoteIp), Some(t.userId), StoredEntries(t.entries),
        if t.tags == Some(map[]) then None else t.tags,
        if t.requestBody == [] then None else Some(t.requestBody),
        if t.responseBody == [] then None else Some(t.responseBody),
        NullableString(t.kind), NullableString(t.operationName), NullableString(t.originRequestId),
        NullableString(t.status),
        if t.startedAt == ZERO_TIME then None else Some(t.startedAt),
        if t.duration > 0 then Some(t.duration / MILLISECOND) else None,
        at)
  }

  /** The summary handed to the promote callback, built from the caller's trace. */
  function CallbackSummary(t: Trace, at: Time): TraceSummary {
    Project(t.(createdAt := at))
  }

  // ----- reading -----

  /** The destinations that `applyOperationFields` fills in. */
  class OperationFields {
    var kind: string
    var operationId: string
    var operationName: string
    var originRequestId: string
    var status: string
    var startedAt: Time
    var duration: Duration

    /** Go's zero values. */
    constructor ()
      ensures AreZero()
    {
      kind, operationId, operationName, originRequestId, status := "", "", "", "", "";
      startedAt, duration := ZERO_TIME, 0;
    }

    ghost predicate AreZero()
      reads this
    {
      && kind == operationId == operationName == originRequestId == status == ""
      && startedAt == ZERO_TIME && duration == 0
    }

    /** A column that is NULL leaves its destination alone. */
    method Apply(row: Row)
      modifies this
      ensures kind == if row.kind.Some? then row.kind.value else old(kind)
      ensures operationName == if row.operationName.Some? then row.operationName.value else old(operationName)
      ensures originRequestId == if row.originRequestId.Some? then row.originRequestId.value else old(originRequestId)
      ensures status == if row.status.Some? then row.status.value else old(status)
      ensures startedAt == if row.startedAt.Some? then row.startedAt.value else old(startedAt)
      ensures duration == if row.durationMs.Some? then Wrap64(row.durationMs.value as int * MILLISECOND) else old(duration)
      ensures operationId == if kind == KIND_OPERATION then row.requestId else old(operationId)
    {
      if row.kind.Some? {
        kind := row.kind.value;
      }
      if row.operationName.Some? {
        operationName := row.operationName.value;
      }
      if row.originRequestId.Some? {
        originRequestId := row.originRequestId.value;
      }
      if row.status.Some? {
        status := row.status.value;
      }
      if row.startedAt.Some? {
        startedAt := row.startedAt.value;
      }
      if row.durationMs.Some? {
        duration := Wrap64(row.durationMs.value as int * MILLISECOND);
      }
      if kind == KIND_OPERATION {
        operationId := row.requestId;
      }
    }
  }

  /** The trace a row stands for. */
  function RowTrace(row: Row): Trace
    requires row.userAgent.Some? && row.remoteIp.Some? && row.userId.Some?
  {
    Trace(row.requestId, OrEmpty(row.parentRequestId), row.errorChain, row.statusCode, row.route, row.verb,
          row.userAgent.value, row.remoteIp.value, row.userId.value, row.tags, row.entries,
          if row.requestBody.Some? then row.requestBody.value else [],
          if row.responseBody.Some? then row.responseBody.value else [],
          row.createdAt, OrEmpty(row.kind),
          if row.kind == Some(KIND_OPERATION) then row.requestId else "",
          OrEmpty(row.operationName), OrEmpty(row.originRequestId), OrEmpty(row.status),
          if row.startedAt.Some? then row.startedAt.value else ZERO_TIME,
          if row.durationMs.Some? then Wrap64(row.durationMs.value as int * MILLISECOND) else 0)
  }

  function DecodeRow(row: Row): Result<Trace, StoreError> {
    if row.userAgent.Some? && row.remoteIp.Some? && row.userId.Some? then Ok(RowTrace(row)) else Err(NullColumn)
  }

  /** The row scan of `Get`. */
  method ScanTrace(row: Row) returns (r: Result<Trace, StoreError>)
    ensures r == DecodeRow(row)
  {
    if row.userAgent.None? || row.remoteIp.None? || row.userId.None? {
      return Err(NullColumn);
    }
    var parentId := "";
    if row.parentRequestId.Some? {
      parentId := row.parentRequestId.value;
    }
    var requestBody, responseBody: Bytes := [], [];
    if row.requestBody.Some? {
      requestBody := row.requestBody.value;
    }
    if row.responseBody.Some? {
      responseBody := row.responseBody.value;
    }
    var o := new OperationFields();
    o.Apply(row);
    return Ok(Trace(row.requestId, parentId, row.errorChain, row.statusCode, row.route, row.verb,
                    row.userAgent.value, row.remoteIp.value, row.userId.value, row.tags, row.entries,
                    requestBody, responseBody, row.createdAt, o.kind, o.operationId, o.operationName,
                    o.originRequestId, o.status, o.startedAt, o.duration));
  }

  /** The row scan of `ListTraces`, which does not read the user agent. */
  method ScanSummary(row: Row) returns (r: Result<TraceSummary, StoreError>)
    ensures r.Ok? <==> row.remoteIp.Some? && row.userId.Some?
    ensures r.Err? ==> r == Err(NullColumn)
    ensures r.Ok? ==> r.value == Project(RowTrace(row.(userAgent := Some(""))))
  {
    if row.remoteIp.None? || row.userId.None? {
      return Err(NullColumn);
    }
    var parentId := "";
    if row.parentRequestId.Some? {
      parentId := row.parentRequestId.value;
    }
    var o := new OperationFields();
    o.Apply(row);
    return Ok(TraceSummary(row.requestId, parentId, row.errorChain, row.statusCode, row.route, row.verb,
                           row.remoteIp.value, row.userId.value, row.tags, row.createdAt, o.kind, o.operationId,
                           o.operationName, o.originRequestId, o.status, o.startedAt, o.duration));
  }

  /** A trace without its entries, bodies and user agent. */
  function Project(t: Trace): TraceSummary {
    TraceSummary(t.requestId, t.parentRequestId, t.errorChain, t.statusCode, t.route, t.verb, t.remoteIp, t.userId,
                 t.tags, t.createdAt, t.kind, t.operationId, t.operationName, t.originRequestId, t.status,
                 t.startedAt, t.duration)
  }

  /** What `ListTraces` shows of a row is the summary of what `Get` returns for it. */
  lemma SummaryIsProjectionOfGet(row: Row)
    requires DecodeRow(row).Ok?
    ensures Project(RowTrace(row.(userAgent := Some("")))) == Project(DecodeRow(row).value)
  {
  }

  // ----- the round trip -----

  function TruncateToMs(d: Duration): Duration {
    if d <= 0 then 0 else d - d % MILLISECOND
  }

  /** All that storing and loading does to a trace. */
  function Normalise(t: Trace, at: Time): Trace {
    t.(createdAt := at,
       entries := StoredEntries(t.entries),
       duration := TruncateToMs(t.duration),
       tags := if t.tags == Some(map[]) then None else t.tags,
       operationId := if t.kind == KIND_OPERATION then t.requestId else "")
  }

  /** Field by field, what reading back a trace stored at `at` must give. */
  ghost predicate IsStoredCopy(got: Trace, t: Trace, at: Time) {
    && got.requestId == t.requestId && got.parentRequestId == t.parentRequestId && got.errorChain == t.errorChain
    && got.statusCode == t.statusCode && got.route == t.route && got.verb == t.verb && got.userAgent == t.userAgent
    && got.remoteIp == t.remoteIp && got.userId == t.userId
    && got.tags == (if t.tags == Some(map[]) then None else t.tags)
    && HasEntriesOf(got.entries, t.entries)
    && got.requestBody == t.requestBody && got.responseBody == t.responseBody && got.createdAt == at
    && got.kind == t.kind && got.operationId == (if t.kind == "operation" then t.requestId else "")
    && got.operationName == t.operationName && got.originRequestId == t.originRequestId && got.status == t.status
    && got.startedAt == t.startedAt
    && (if t.duration > 0 then 0 <= t.duration - got.duration < 1000000 && got.duration % 1000000 == 0 else got.duration == 0)
  }

  /** The same entries, one by one; an empty attribute map is read back as none. */
  ghost predicate HasEntriesOf(got: seq<Entry>, entries: seq<Entry>) {
    && |got| == |entries|
    && forall i :: 0 <= i < |entries| ==>
                     && got[i].time == entries[i].time && got[i].level == entries[i].level && got[i].message == entries[i].message
                     && got[i].attrs == if entries[i].attrs == Some(map[]) then None else entries[i].attrs
  }

  /** Reading back what was written gives the normalised trace, and that is the stored copy. */
  lemma StoreRoundTrip(t: Trace, at: Time)
    ensures DecodeRow(EncodeRow(t, at)) == Ok(Normalise(t, at))
    ensures IsStoredCopy(Normalise(t, at), t, at)
  {
  }

  /** Field by field, what the promote callback must report of a trace. */
  ghost predicate IsReport(s: TraceSummary, t: Trace, at: Time) {
    && s.requestId == t.requestId && s.parentRequestId == t.parentRequestId && s.errorChain == t.errorChain
    && s.statusCode == t.statusCode && s.route == t.route && s.verb == t.verb
    && s.remoteIp == t.remoteIp && s.userId == t.userId && s.tags == t.tags && s.createdAt == at
    && s.kind == t.kind && s.operationId == t.operationId && s.operationName == t.operationName
    && s.originRequestId == t.originRequestId && s.status == t.status
    && s.startedAt == t.startedAt && s.duration == t.duration
  }

  /** Nothing is lost the second time. The row itself is written the same again except that a
      duration below one millisecond is first stored as 0 and then as NULL. */
  lemma NormaliseIsIdempotent(t: Trace, at: Time)
    ensures Normalise(Normalise(t, at), at) == Normalise(t, at)
    ensures EncodeRow(Normalise(t, at), at) == EncodeRow(t, at) <==> !(0 < t.duration < MILLISECOND)
  {
    StoringEntriesTwice(t.entries);
  }

  lemma DurationLosesLessThanOneMs(t: Trace, at: Time)
    ensures t.duration >= 0 ==> 0 <= t.duration - Normalise(t, at).duration < MILLISECOND
    ensures t.duration < 0 ==> Normalise(t, at).duration == 0
  {
  }

  /** The callback sees the caller's trace, not the stored one. The two summaries agree exactly for
      traces that storing leaves alone. */
  lemma CallbackAgreesWithStoreIff(t: Trace, at: Time)
    ensures CallbackSummary(t, at) == Project(Normalise(t, at)) <==>
            && t.duration >= 0 && t.duration % MILLISECOND == 0
            && t.tags != Some(map[])
            && t.operationId == (if t.kind == KIND_OPERATION then t.requestId else "")
  {
  }

  function SampleOperation(duration: Duration): Trace {
    Trace("op-1", "", "boom", 0, "", "", "", "", "", None, [], [], [], 0, KIND_OPERATION, "op-1", "sync", "", "failed", 1, duration)
  }

  /** A failed operation of 1.5 milliseconds: the callback reports 1500000 ns, the store 1000000. */
  lemma CallbackReportsMore(at: Time)
    ensures CallbackSummary(SampleOperation(1500000), at).duration == 1500000
    ensures Project(Normalise(SampleOperation(1500000), at)).duration == 1000000
  {
  }

  /** One of half a millisecond is stored with duration 0, and with NULL when the loaded trace is
      stored again. */
  lemma HalfMillisecondBecomesNull(at: Time)
    ensures EncodeRow(SampleOperation(500000), at).durationMs == Some(0)
    ensures EncodeRow(Normalise(SampleOperation(500000), at), at).durationMs == None
  {
  }
}
