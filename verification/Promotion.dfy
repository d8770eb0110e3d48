/** Promoting the trace of a detached operation (operation.go). */
module Promotion {
  import opened Types
  import opened LogBuffer
  import opened Codec
  import opened Table
  import C = Correlation
  import H = Handler
  import S = Store

  // ----- operations -----

  datatype PromoteError = NoOperation | StoreFailed(error: StoreError)

  const STATUS_OK := "ok"
  const STATUS_FAILED := "failed"

  /** The start attributes under the tags of the buffer; without any there is no map. */
  function MergedTags(attrs: Tags, bufferTags: Option<Tags>): Option<Tags> {
    var m := attrs + if bufferTags.Some? then bufferTags.value else map[];
    if m == map[] then None else Some(m)
  }

  class Operation {
    const id: string
    const name: string
    const originRequestId: string
    const parentRequestId: string
    const attrs: Tags
    const buf: Buffer
    const startedAt: Time

    /** `StartOperation`: a buffer of its own, the request's IDs as origin and parent, and the
        attributes with the last value of each key. */
    constructor (ctx: C.Context, name: string, attrs: seq<H.Attr>, gen: string, now: Time)
      ensures id == gen && this.name == name && startedAt == now
      ensures originRequestId == ctx.requestId && parentRequestId == ctx.parentId
      ensures forall k :: k in this.attrs <==> H.Mentions(attrs, k)
      ensures forall k :: k in this.attrs ==> this.attrs[k] == H.LastValue(attrs, k)
      ensures fresh(buf) && fresh(buf.tail) && buf.Valid() && buf.limit == 0 && buf.history == []
    {
      var m: Tags := map[];
      for i := 0 to |attrs|
        invariant forall k :: k in m <==> H.Mentions(attrs[..i], k)
        invariant forall k :: k in m ==> m[k] == H.LastValue(attrs[..i], k)
      {
        ghost var longer := attrs[..i + 1];
        assert longer[..i] == attrs[..i] && longer[i] == attrs[i];
        forall k
          ensures H.Mentions(longer, k) <==> H.Mentions(attrs[..i], k) || k == attrs[i].key
        {
          if k == attrs[i].key {
            assert longer[i].key == k;
          }
          if j :| 0 <= j < i && attrs[..i][j].key == k {
            assert longer[j].key == k;
          }
        }
        m := m[attrs[i].key := attrs[i].value];
      }
      assert attrs[..|attrs|] == attrs;
      var b := new Buffer(0);
      this.id, this.name, this.originRequestId, this.parentRequestId := gen, name, ctx.requestId, ctx.parentId;
      this.attrs, this.buf, this.startedAt := m, b, now;
    }

    /** Adds the start attributes that the buffer's tags do not override. */
    method MergeTags() returns (tags: Option<Tags>)
      ensures tags == MergedTags(attrs, buf.tags)
    {
      tags := buf.Tags();
      if attrs == map[] {
        assert attrs + (if tags.Some? then tags.value else map[]) == if tags.Some? then tags.value else map[];
        return;
      }
      var fromBuffer: Tags := if tags.Some? then tags.value else map[];
      var merged := fromBuffer;
      var rest := attrs.Keys;
      while rest != {}
        invariant rest <= attrs.Keys
        invariant forall k :: k in merged <==> k in fromBuffer || (k in attrs && k !in rest)
        invariant forall k :: k in merged ==> merged[k] == if k in fromBuffer then fromBuffer[k] else attrs[k]
      {
        var k :| k in rest;
        if k !in merged {
          merged := merged[k := attrs[k]];
        }
        rest := rest - {k};
      }
      var some :| some in attrs.Keys;
      assert some in merged;
      assert merged == attrs + fromBuffer;
      tags := Some(merged);
    }

    /** The trace of the operation when it finishes at `now`; a nil error is a success. */
    ghost function Finished(err: Option<string>, now: Time): Trace
      reads buf
    {
      Trace(id, parentRequestId, if err.Some? then err.value else "", 0, "", "", "", "", "",
            MergedTags(attrs, buf.tags), View(buf.limit, buf.history, now), [], [], now,
            KIND_OPERATION, id, name, originRequestId, if err.Some? then STATUS_FAILED else STATUS_OK,
            startedAt, Saturate64(now - startedAt))
    }

    /** The source's `trace`. */
    method TraceOf(err: Option<string>, now: Time) returns (t: Trace)
      requires buf.Valid()
      ensures t == Finished(err, now) && IsOperationTrace(t)
    {
      var tags := MergeTags();
      var status, errorChain := STATUS_OK, "";
      if err.Some? {
        status, errorChain := STATUS_FAILED, err.value;
      }
      var entries := buf.Entries(now);
      t := Trace(id, parentRequestId, errorChain, 0, "", "", "", "", "", tags, entries, [], [], now,
                 KIND_OPERATION, id, name, originRequestId, status, startedAt, Saturate64(now - startedAt));
    }
  }

  ghost predicate IsOperationTrace(t: Trace) {
    t.kind == KIND_OPERATION && t.operationId == t.requestId && t.tags != Some(map[])
  }

  /** An operation's trace comes back from the store as it was, but for empty attribute maps and the
      part of its duration below a millisecond (all of it, should the clock have gone back). */
  lemma OperationTraceSurvives(t: Trace, at: Time)
    requires IsOperationTrace(t)
    ensures DecodeRow(EncodeRow(t, at)) ==
            Ok(t.(createdAt := at, entries := StoredEntries(t.entries), duration := TruncateToMs(t.duration)))
    ensures t.duration >= 0 ==> 0 <= t.duration - TruncateToMs(t.duration) < MILLISECOND
  {
    StoreRoundTrip(t, at);
  }

  /** What one successful promote does to a store: one row more and one callback more. */
  twostate predicate Promotes(store: S.Store, t: Trace, at: Time)
    reads store
  {
    && store.rows == old(store.rows) + [EncodeRow(t, at)]
    && store.fired == old(store.fired) + (if store.hasCallback then [CallbackSummary(t, at)] else [])
    && ReadsBack(store.rows, t, at)
  }

  twostate predicate LeavesAlone(store: S.Store)
    reads store
  {
    store.rows == old(store.rows) && store.fired == old(store.fired)
  }

  /** Field by field, what reading the ID of a finished operation gives. Of two values for a tag the
      buffer's wins; the duration is that between the clock reads, but for its last millisecond. */
  ghost predicate ReadsBackOperation(rows: seq<Row>, op: Operation, err: Option<string>, now: Time, at: Time)
    reads op.buf
  {
    var found := Table.Lookup(rows, op.id);
    && found.Ok? && found.value.Some?
    && var got, noted := found.value.value, if op.buf.tags.Some? then op.buf.tags.value else map[];
    && got.kind == "operation" && got.operationId == op.id && got.operationName == op.name
    && got.originRequestId == op.originRequestId && got.parentRequestId == op.parentRequestId
    && (if err.None? then got.status == "ok" && got.errorChain == "" else got.status == "failed" && got.errorChain == err.value)
    && (got.tags.Some? <==> op.attrs != map[] || noted != map[])
    && (got.tags.Some? ==>
          && (forall k :: k in got.tags.value <==> k in op.attrs || k in noted)
          && (forall k :: k in got.tags.value ==> got.tags.value[k] == if k in noted then noted[k] else op.attrs[k]))
    && HasEntriesOf(got.entries, View(op.buf.limit, op.buf.history, now))
    && got.startedAt == op.startedAt && got.createdAt == at
    && (now <= op.startedAt ==> got.duration == 0)
    && (op.startedAt < now <= op.startedAt + MAX_INT64 ==> 0 <= now - op.startedAt - got.duration < 1000000)
  }

  lemma FinishedReadsBack(rows: seq<Row>, op: Operation, err: Option<string>, now: Time, at: Time)
    requires ReadsBack(rows, op.Finished(err, now), at)
    ensures ReadsBackOperation(rows, op, err, now, at)
  {
    var noted := if op.buf.tags.Some? then op.buf.tags.value else map[];
    assert op.attrs + noted == map[] <==> op.attrs == map[] && noted == map[] by {
      assert (op.attrs + noted).Keys == op.attrs.Keys + noted.Keys;
      assert op.attrs == map[] <==> op.attrs.Keys == {};
      assert noted == map[] <==> noted.Keys == {};
      assert op.attrs + noted == map[] <==> (op.attrs + noted).Keys == {};
    }
  }

  /** `PromoteOperation`: now and at are the two clock reads, of the trace and of the store. */
  method PromoteOperation(op: Operation?, store: S.Store, err: Option<string>, now: Time, at: Time)
    returns (r: Result<(), PromoteError>)
    requires store.Valid() && (op != null ==> op.buf.Valid())
    modifies store`rows, store`fired
    ensures store.Valid()
    ensures op == null ==> r == Err(NoOperation) && LeavesAlone(store)
    ensures op != null && HasId(old(store.rows), op.id) ==> r == Err(StoreFailed(DuplicateTrace)) && LeavesAlone(store)
    ensures op != null && !HasId(old(store.rows), op.id) ==>
              r == Ok(()) && Promotes(store, op.Finished(err, now), at) && ReadsBackOperation(store.rows, op, err, now, at)
  {
    if op == null {
      return Err(NoOperation);
    }
    var t := op.TraceOf(err, now);
    PromoteThenLookup(store.rows, t, at);
    var result := store.PromoteAt(t, at);
    match result
    case Ok(_) =>
      FinishedReadsBack(store.rows, op, err, now, at);
      return Ok(());
    case Err(e) => return Err(StoreFailed(e));
  }
}
