/** A request on its way through the middleware: correlation, body capture and the promotion policies
    (autopromote.go) around a handler that logs, tags and responds. */
module Serving {
  import opened Types
  import opened LogBuffer
  import opened Codec
  import opened Table
  import opened Capture
  import opened Promotion
  import C = Correlation
  import H = Handler
  import S = Store

  // ----- what a handler does -----

  /** A use of the response writer. */
  datatype Call = WriteHeader(code: Int64) | Write(body: Bytes)

  datatype Action =
    | Log(logger: H.Handler, record: H.Record)
    | Tag(key: string, value: string)
    | Respond(call: Call)

  {
    ghost predicate Valid() {
      Log? ==> logger.Valid()
    }

    function Attrs(): set<array<H.Attr>> {
      if Log? then {logger.attrs.mem} else {}
    }

    function Sinks(): set<H.Sink> {
      if Log? then {logger.inner.sink} else {}
    }
  }

  ghost predicate CanLog(script: seq<Action>) {
    forall a :: a in script ==> a.Valid()
  }

  function SinksOf(script: seq<Action>): set<H.Sink> {
    set a, s | a in script && s in a.Sinks() :: s
  }

  function AttrsOf(script: seq<Action>): set<array<H.Attr>> {
    set a, m | a in script && m in a.Attrs() :: m
  }

  /** The entry that the buffer of request `id` gets from an action, if any. */
  ghost function EntryBy(id: string, a: Action): seq<Entry>
    requires a.Valid()
    reads a.Attrs()
  {
    if a.Log? && (a.logger.requestId != "" || id != "")
    then [H.EntryFor(a.record, a.logger.Attrs() + a.record.attrs, None)] else []
  }

  ghost function EntriesOf(id: string, script: seq<Action>): seq<Entry>
    requires CanLog(script)
    reads AttrsOf(script)
  {
    if script == [] then [] else EntriesOf(id, script[..|script| - 1]) + EntryBy(id, script[|script| - 1])
  }

  /** The buffer's tags after an action. */
  function TagsBy(tags: Option<Tags>, a: Action): Option<Tags> {
    if a.Tag? then Some((if tags.Some? then tags.value else map[])[a.key := a.value]) else tags
  }

  function TagsAfter(tags: Option<Tags>, script: seq<Action>): Option<Tags> {
    if script == [] then tags else TagsBy(TagsAfter(tags, script[..|script| - 1]), script[|script| - 1])
  }

  /** The uses of the response writer, and what they send. */
  function CallsBy(a: Action): seq<Call> {
    if a.Respond? then [a.call] else []
  }

  function CallsOf(script: seq<Action>): seq<Call> {
    if script == [] then [] else CallsOf(script[..|script| - 1]) + CallsBy(script[|script| - 1])
  }

  function BodyBy(call: Call): Bytes {
    if call.Write? then call.body else []
  }

  function BodyOf(calls: seq<Call>): Bytes {
    if calls == [] then [] else BodyOf(calls[..|calls| - 1]) + BodyBy(calls[|calls| - 1])
  }

  function CodesBy(call: Call): seq<Int64> {
    if call.WriteHeader? then [call.code] else []
  }

  function CodesOf(calls: seq<Call>): seq<Int64> {
    if calls == [] then [] else CodesOf(calls[..|calls| - 1]) + CodesBy(calls[|calls| - 1])
  }

  predicate Writes(calls: seq<Call>) {
    exists i :: 0 <= i < |calls| && calls[i].Write?
  }

  // ----- the status -----

  const HTTP_OK: Int64 := 200

  /** The status a response has: the first one written, and 200 when none was written first. */
  function FirstStatus(calls: seq<Call>): Int64 {
    if calls != [] && calls[0].WriteHeader? then calls[0].code else HTTP_OK
  }

  class ResponseWriter {
    const inner: Writer
    var statusCode: Int64
    var written: bool
    ghost var calls: seq<Call>

    ghost predicate Valid()
      reads this
    {
      statusCode == FirstStatus(calls) && (written <==> calls != [])
    }

    constructor (inner: Writer)
      ensures Valid() && calls == [] && this.inner == inner
    {
      this.inner, statusCode, written, calls := inner, HTTP_OK, false, [];
    }

    method WriteHeader(code: Int64)
      requires Valid()
      modifies this, inner.Base()`codes
      ensures Valid() && calls == old(calls) + [Call.WriteHeader(code)]
      ensures inner.Base().codes == old(inner.Base().codes) + [code]
    {
      if !written {
        statusCode := code;
        written := true;
      }
      calls := calls + [Call.WriteHeader(code)];
      inner.WriteHeader(code);
    }

    method Write(body: Bytes)
      requires Valid() && inner.Valid()
      modifies this, inner.Owned(), inner.Buffers()`responseBody, inner.Base()`written
      ensures Valid() && calls == old(calls) + [Call.Write(body)]
      ensures inner.Valid() && inner.Base().written == old(inner.Base().written) + body
      ensures inner.Capturing? ==> inner.crw.used && inner.crw.received == old(inner.crw.received) + body
      ensures inner.Capturing? ==> inner.crw.capBuf.mem == old(inner.crw.capBuf.mem) || fresh(inner.crw.capBuf.mem)
    {
      if !written {
        statusCode := HTTP_OK;
        written := true;
      }
      calls := calls + [Call.Write(body)];
      inner.Write(body);
    }
  }

  // ----- running the handler -----

  ghost function Memory(buf: Buffer?): set<object> {
    if buf == null then {} else {buf, buf.tail}
  }

  /** The writer and the buffer belong to one request. */
  ghost predicate Ready(w: Writer, buf: Buffer?)
    reads w.Owned(), w.Buffers()`responseBody, Memory(buf)
  {
    w.Valid() && (w.Capturing? ==> w.crw.promoBuf == buf) && (buf != null ==> buf.Valid())
  }

  /** The response as far as it has been sent, and the contents of the buffer. */
  datatype Sent = Sent(body: Bytes, codes: seq<Int64>, received: Bytes, used: bool)

  datatype Kept = Kept(history: seq<Entry>, tags: Option<Tags>, requestBody: Bytes, responseBody: Bytes)

  ghost function SentOn(w: Writer): Sent
    reads w.Base(), w.Owned()
  {
    Sent(w.Base().written, w.Base().codes, if w.Capturing? then w.crw.received else [], w.Capturing? && w.crw.used)
  }

  ghost function KeptIn(buf: Buffer?): Kept
    reads Memory(buf)
  {
    if buf == null then Kept([], None, [], []) else Kept(buf.history, buf.tags, buf.requestBody, buf.responseBody)
  }

  /** Everything reaches the writer underneath; a capturing writer sees the bodies. */
  function SendingOne(w: Writer, s: Sent, call: Call): Sent {
    match call
    case WriteHeader(code) => s.(codes := s.codes + [code])
    case Write(body) =>
      if w.Plain? then s.(body := s.body + body)
      else s.(body := s.body + body, received := s.received + body, used := true)
  }

  function Sending(w: Writer, s: Sent, calls: seq<Call>): Sent {
    if calls == [] then s else SendingOne(w, Sending(w, s, calls[..|calls| - 1]), calls[|calls| - 1])
  }

  /** All in all: every code, and all bodies joined. */
  lemma {:induction false} SendingMeans(w: Writer, s: Sent, calls: seq<Call>)
    ensures var r := Sending(w, s, calls);
            && r.body == s.body + BodyOf(calls) && r.codes == s.codes + CodesOf(calls)
            && r.received == s.received + (if w.Capturing? then BodyOf(calls) else [])
            && (r.used <==> s.used || (w.Capturing? && Writes(calls)))
  {
    if calls != [] {
      var front, call := calls[..|calls| - 1], calls[|calls| - 1];
      SendingMeans(w, s, front);
      ConcatAssociates(s.body, BodyOf(front), BodyBy(call));
      ConcatAssociates(s.codes, CodesOf(front), CodesBy(call));
      ConcatAssociates(s.received, BodyOf(front), BodyBy(call));
      assert calls == front + [call];
      WritesSnoc(front, call);
    }
  }

  lemma WritesSnoc(calls: seq<Call>, call: Call)
    ensures Writes(calls + [call]) <==> Writes(calls) || call.Write?
  {
    var longer := calls + [call];
    assert longer[|calls|] == call;
    if i :| 0 <= i < |calls| && calls[i].Write? {
      assert longer[i].Write?;
    }
  }

  /** The response body in the buffer is that of the capturing writer, once it was used. */
  ghost function BodyKept(w: Writer, s: Sent, body: Bytes): Bytes {
    if w.Capturing? && s.used then Redact(w.crw.redactor, Prefix(s.received, w.crw.maxSize)) else body
  }

  method Respond(rw: ResponseWriter, call: Call)
    requires rw.Valid() && rw.inner.Valid()
    modifies rw, rw.inner.Owned(), rw.inner.Buffers()`responseBody, rw.inner.Base()
    ensures rw.Valid() && rw.inner.Valid() && rw.calls == old(rw.calls) + [call]
    ensures SentOn(rw.inner) == SendingOne(rw.inner, old(SentOn(rw.inner)), call)
    ensures rw.inner.Capturing? ==> rw.inner.crw.capBuf.mem == old(rw.inner.crw.capBuf.mem) || fresh(rw.inner.crw.capBuf.mem)
    ensures rw.inner.Capturing? && !rw.inner.crw.used ==> unchanged(rw.inner.crw.promoBuf)
  {
    match call
    case WriteHeader(code) =>
      rw.WriteHeader(code);
    case Write(body) =>
      rw.Write(body);
  }

  /** An action that leaves the response alone. */
  method LogOrTag(id: string, buf: Buffer?, a: Action)
    requires !a.Respond? && a.Valid() && (buf != null ==> buf.Valid())
    modifies Memory(buf), a.Sinks()
    ensures buf != null ==> buf.Valid()
    ensures buf != null ==>
              KeptIn(buf) ==
              var k := old(KeptIn(buf));
              k.(history := k.history + old(EntryBy(id, a)), tags := TagsBy(k.tags, a))
  {
    match a
    case Log(logger, record) =>
      logger.Handle(H.LogContext(id, None, buf), record);
    case Tag(key, value) =>
      if buf != null {
        buf.Tag(key, value);
      }
  }

  /** A response, as it shows in the buffer too. */
  method RespondAndKeep(rw: ResponseWriter, buf: Buffer?, call: Call)
    requires rw.Valid() && Ready(rw.inner, buf)
    modifies rw, rw.inner.Owned(), rw.inner.Base(), Memory(buf)
    ensures rw.Valid() && rw.calls == old(rw.calls) + [call] && Ready(rw.inner, buf)
    ensures SentOn(rw.inner) == SendingOne(rw.inner, old(SentOn(rw.inner)), call)
    ensures rw.inner.Capturing? ==> rw.inner.crw.capBuf.mem == old(rw.inner.crw.capBuf.mem) || fresh(rw.inner.crw.capBuf.mem)
    ensures buf != null ==>
              KeptIn(buf) ==
              var k := old(KeptIn(buf));
              k.(responseBody := BodyKept(rw.inner, SentOn(rw.inner), k.responseBody))
  {
    Respond(rw, call);
  }

  /** An action that leaves the response alone, beside the writer. */
  method NoteBeside(rw: ResponseWriter, id: string, buf: Buffer?, a: Action)
    requires !a.Respond? && a.Valid() && rw.Valid() && Ready(rw.inner, buf)
    modifies Memory(buf), a.Sinks()
    ensures rw.Valid() && rw.calls == old(rw.calls) && Ready(rw.inner, buf)
    ensures SentOn(rw.inner) == old(SentOn(rw.inner))
    ensures rw.inner.Capturing? ==> rw.inner.crw.capBuf == old(rw.inner.crw.capBuf)
    ensures buf != null ==>
              KeptIn(buf) ==
              var k := old(KeptIn(buf));
              Kept(k.history + old(EntryBy(id, a)), TagsBy(k.tags, a), k.requestBody,
                   BodyKept(rw.inner, SentOn(rw.inner), k.responseBody))
  {
    LogOrTag(id, buf, a);
  }

  /** One action, as it shows in the response and in the buffer. */
  method Act(rw: ResponseWriter, id: string, buf: Buffer?, a: Action)
    requires rw.Valid() && Ready(rw.inner, buf) && a.Valid()
    modifies rw, rw.inner.Owned(), rw.inner.Base(), Memory(buf), a.Sinks()
    ensures rw.Valid() && rw.calls == old(rw.calls) + CallsBy(a) && Ready(rw.inner, buf)
    ensures SentOn(rw.inner) == Sending(rw.inner, old(SentOn(rw.inner)), CallsBy(a))
    ensures rw.inner.Capturing? ==> rw.inner.crw.capBuf.mem == old(rw.inner.crw.capBuf.mem) || fresh(rw.inner.crw.capBuf.mem)
    ensures buf != null ==>
              KeptIn(buf) ==
              var k := old(KeptIn(buf));
              Kept(k.history + old(EntryBy(id, a)), TagsBy(k.tags, a), k.requestBody,
                   BodyKept(rw.inner, SentOn(rw.inner), k.responseBody))
  {
    if a.Respond? {
      assert [a.call][..0] == [];
      RespondAndKeep(rw, buf, a.call);
    } else {
      NoteBeside(rw, id, buf, a);
    }
  }

  /** What the buffer holds when the script has put these entries into it. */
  ghost function Filled(w: Writer, s: Sent, k: Kept, entries: seq<Entry>, script: seq<Action>): Kept {
    Kept(k.history + entries, TagsAfter(k.tags, script), k.requestBody, BodyKept(w, s, k.responseBody))
  }

  /** Where the script gets, when it began with s and k. */
  ghost predicate HasRun(rw: ResponseWriter, buf: Buffer?, s: Sent, k: Kept, entries: seq<Entry>, script: seq<Action>)
    reads rw, rw.inner.Owned(), rw.inner.Buffers()`responseBody, rw.inner.Base(), Memory(buf)
  {
    && rw.Valid() && rw.calls == CallsOf(script) && Ready(rw.inner, buf)
    && SentOn(rw.inner) == Sending(rw.inner, s, CallsOf(script))
    && (buf != null ==> KeptIn(buf) == Filled(rw.inner, SentOn(rw.inner), k, entries, script))
  }

  /** One more action, in a script under way. */
  method ActNext(rw: ResponseWriter, id: string, buf: Buffer?, front: seq<Action>, a: Action,
                 ghost s: Sent, ghost k: Kept, ghost entries: seq<Entry>)
    requires HasRun(rw, buf, s, k, entries, front) && a.Valid()
    modifies rw, rw.inner.Owned(), rw.inner.Base(), Memory(buf), a.Sinks()
    ensures HasRun(rw, buf, s, k, entries + old(EntryBy(id, a)), front + [a])
    ensures rw.inner.Capturing? ==> rw.inner.crw.capBuf.mem == old(rw.inner.crw.capBuf.mem) || fresh(rw.inner.crw.capBuf.mem)
  {
    OneMoreAction(rw.inner, s, k, entries, EntryBy(id, a), front, a);
    Act(rw, id, buf, a);
  }

  /** The same on values. */
  lemma OneMoreAction(w: Writer, s: Sent, k: Kept, entries: seq<Entry>, entry: seq<Entry>, front: seq<Action>, a: Action)
    ensures var s1 := Sending(w, s, CallsOf(front));
            var s2 := Sending(w, s1, CallsBy(a));
            var k1 := Filled(w, s1, k, entries, front);
            && CallsOf(front + [a]) == CallsOf(front) + CallsBy(a) && s2 == Sending(w, s, CallsOf(front + [a]))
            && Kept(k1.history + entry, TagsBy(k1.tags, a), k1.requestBody, BodyKept(w, s2, k1.responseBody)) ==
               Filled(w, s2, k, entries + entry, front + [a])
  {
    assert (front + [a])[..|front|] == front;
    SendingSnoc(w, s, CallsOf(front), CallsBy(a));
    BodyKeptTwice(w, Sending(w, s, CallsOf(front)), CallsBy(a), k.responseBody);
    ConcatAssociates(k.history, entries, entry);
  }

  /** Runs the handler on the writer, in the context of the request. */
  method RunHandler(rw: ResponseWriter, id: string, buf: Buffer?, script: seq<Action>)
    requires rw.Valid() && rw.calls == [] && Ready(rw.inner, buf) && CanLog(script)
    modifies rw, rw.inner.Owned(), rw.inner.Base(), Memory(buf), SinksOf(script)
    ensures HasRun(rw, buf, old(SentOn(rw.inner)), old(KeptIn(buf)), old(EntriesOf(id, script)), script)
    ensures rw.inner.Capturing? ==> rw.inner.crw.capBuf.mem == old(rw.inner.crw.capBuf.mem) || fresh(rw.inner.crw.capBuf.mem)
    decreases |script|, 0
  {
    if script == [] {
      return;
    }
    var front, a := script[..|script| - 1], script[|script| - 1];
    LastAction(script);
    ghost var s, k, entries := SentOn(rw.inner), KeptIn(buf), EntriesOf(id, front);
    RunFront(rw, id, buf, front, a);
    ActNext(rw, id, buf, front, a, s, k, entries);
  }

  /** The actions before a last one, which they leave as it is. */
  method RunFront(rw: ResponseWriter, id: string, buf: Buffer?, front: seq<Action>, a: Action)
    requires rw.Valid() && rw.calls == [] && Ready(rw.inner, buf) && CanLog(front) && a.Valid()
    modifies rw, rw.inner.Owned(), rw.inner.Base(), Memory(buf), SinksOf(front)
    ensures HasRun(rw, buf, old(SentOn(rw.inner)), old(KeptIn(buf)), old(EntriesOf(id, front)), front)
    ensures rw.inner.Capturing? ==> rw.inner.crw.capBuf.mem == old(rw.inner.crw.capBuf.mem) || fresh(rw.inner.crw.capBuf.mem)
    ensures EntryBy(id, a) == old(EntryBy(id, a))
    decreases |front|, 1
  {
    RunHandler(rw, id, buf, front);
    assert forall m :: m in a.Attrs() ==> m[..] == old(m[..]);
  }

  lemma LastAction(script: seq<Action>)
    requires script != [] && CanLog(script)
    ensures var front, a := script[..|script| - 1], script[|script| - 1];
            && front + [a] == script && CanLog(front) && a.Valid()
            && SinksOf(front) <= SinksOf(script) && a.Sinks() <= SinksOf(script)
  {
    assert script[|script| - 1] in script;
  }

  lemma ConcatAssociates<T>(a: seq<T>, b: seq<T>, c: seq<T>)
    ensures a + b + c == a + (b + c)
  {
  }

  lemma BodyKeptTwice(w: Writer, s: Sent, more: seq<Call>, body: Bytes)
    requires |more| <= 1
    ensures var s' := Sending(w, s, more);
            BodyKept(w, s', BodyKept(w, s, body)) == BodyKept(w, s', body)
  {
    assert more != [] ==> more[..0] == [];
  }

  lemma SendingSnoc(w: Writer, s: Sent, calls: seq<Call>, more: seq<Call>)
    requires |more| <= 1
    ensures Sending(w, s, calls + more) == Sending(w, Sending(w, s, calls), more)
  {
    if more == [] {
      assert calls + more == calls;
    } else {
      assert (calls + more)[..|calls|] == calls && more[..0] == [];
    }
  }

  /** The status is the code of the first response; it is 200 when that is a body or there is none. */
  ghost predicate AnswersWith(script: seq<Action>, status: Int64) {
    && (forall i :: 0 <= i < |script| && script[i].Respond? && (forall j :: 0 <= j < i ==> !script[j].Respond?) ==>
                      status == if script[i].call.WriteHeader? then script[i].call.code else 200)
    && ((forall i :: 0 <= i < |script| ==> !script[i].Respond?) ==> status == 200)
  }

  lemma {:induction false} FirstStatusAnswers(script: seq<Action>)
    ensures AnswersWith(script, FirstStatus(CallsOf(script)))
    ensures CallsOf(script) == [] <==> forall i :: 0 <= i < |script| ==> !script[i].Respond?
  {
    if script != [] {
      var front := script[..|script| - 1];
      FirstStatusAnswers(front);
      assert forall i :: 0 <= i < |front| ==> script[i] == front[i];
      assert CallsOf(front) != [] ==> CallsOf(script)[0] == CallsOf(front)[0];
    }
  }

  /** Runs the handler on a writer that notes the status of the response. */
  method RecordStatus(w: Writer, id: string, buf: Buffer?, script: seq<Action>) returns (status: Int64)
    requires Ready(w, buf) && CanLog(script)
    modifies w.Owned(), w.Base(), Memory(buf), SinksOf(script)
    ensures Ready(w, buf) && status == FirstStatus(CallsOf(script)) && AnswersWith(script, status)
    ensures SentOn(w) == Sending(w, old(SentOn(w)), CallsOf(script))
    ensures buf != null ==>
              KeptIn(buf) == Filled(w, SentOn(w), old(KeptIn(buf)), old(EntriesOf(id, script)), script)
  {
    assert forall m :: m in AttrsOf(script) ==> allocated(m);
    var rw := new ResponseWriter(w);
    assert forall m :: m in AttrsOf(script) ==> m[..] == old(m[..]);
    assert EntriesOf(id, script) == old(EntriesOf(id, script));
    RunHandler(rw, id, buf, script);
    FirstStatusAnswers(script);
    status := rw.statusCode;
  }

  // ----- promoting by policy -----

  /** What the middleware reads from a request. */
  datatype Request = Request(path: string, verb: string, userAgent: string, remoteAddr: string)

  type Policy = Int64 -> bool

  predicate Accepts(policies: seq<Policy>, status: Int64) {
    exists i :: 0 <= i < |policies| && policies[i](status)
  }

  /** The trace of a request whose buffer has this limit and these contents. */
  function RequestTrace(req: Request, ctx: C.Context, limit: nat, k: Kept, status: Int64, now: Time): Trace {
    Trace(ctx.requestId, ctx.parentId, "", status, req.path, req.verb, req.userAgent, req.remoteAddr, "",
          if k.tags == Some(map[]) then None else k.tags, View(limit, k.history, now),
          k.requestBody, k.responseBody, now, "", "", "", "", "", ZERO_TIME, 0)
  }

  /** Field by field, what reading the request's ID gives once its trace is stored. */
  ghost predicate ReadsBackRequest(rows: seq<Row>, req: Request, ctx: C.Context, status: Int64, tags: Option<Tags>,
                                   entries: seq<Entry>, requestBody: Bytes, responseBody: Bytes, at: Time)
  {
    var found := Table.Lookup(rows, ctx.requestId);
    && found.Ok? && found.value.Some?
    && var got := found.value.value;
    && got.requestId == ctx.requestId && got.parentRequestId == ctx.parentId
    && got.route == req.path && got.verb == req.verb && got.userAgent == req.userAgent && got.remoteIp == req.remoteAddr
    && got.statusCode == status && got.errorChain == "" && got.userId == "" && got.kind == "" && got.operationId == ""
    && got.tags == (if tags == Some(map[]) then None else tags)
    && HasEntriesOf(got.entries, entries)
    && got.requestBody == requestBody && got.responseBody == responseBody && got.createdAt == at
    && got.startedAt == -62135596800 * 1000000000 && got.duration == 0
  }

  lemma RequestReadsBack(rows: seq<Row>, req: Request, ctx: C.Context, limit: nat, k: Kept, status: Int64, now: Time, at: Time)
    requires ReadsBack(rows, RequestTrace(req, ctx, limit, k, status, now), at)
    ensures ReadsBackRequest(rows, req, ctx, status, k.tags, View(limit, k.history, now), k.requestBody, k.responseBody, at)
  {
  }

  /** A new trace of the request gives one row and one callback more; otherwise nothing changes. */
  twostate predicate Settles(store: S.Store, promoted: bool, id: string, new t: Trace, at: Time)
    reads store
  {
    if promoted && !HasId(old(store.rows), id) then Promotes(store, t, at) else LeavesAlone(store)
  }

  /** The same of the trace that takes its data from the request and its buffer, and what then reads
      back, field by field. */
  twostate predicate SettlesRequest(store: S.Store, promoted: bool, req: Request, ctx: C.Context, new buf: Buffer?,
                                    status: Int64, now: Time, at: Time)
    reads store, Memory(buf)
  {
    if buf == null then LeavesAlone(store)
    else
      && Settles(store, promoted, ctx.requestId, RequestTrace(req, ctx, buf.limit, KeptIn(buf), status, now), at)
      && (promoted && !HasId(old(store.rows), ctx.requestId) ==>
            ReadsBackRequest(store.rows, req, ctx, status, buf.tags, View(buf.limit, buf.history, now),
                             buf.requestBody, buf.responseBody, at))
  }

  /** Runs the handler and promotes what it left in the buffer, at most once: exactly when some policy
      accepts the first status, and the context has an ID and a buffer. */
  method AutoPromote(store: S.Store, policies: seq<Policy>, req: Request, ctx: C.Context, buf: Buffer?,
                     w: Writer, script: seq<Action>, now: Time, at: Time)
    returns (promoted: bool)
    requires store.Valid() && Ready(w, buf) && CanLog(script)
    modifies store`rows, store`fired, w.Owned(), w.Base(), Memory(buf), SinksOf(script)
    ensures store.Valid() && Ready(w, buf)
    ensures SentOn(w) == Sending(w, old(SentOn(w)), CallsOf(script))
    ensures buf != null ==>
              KeptIn(buf) == Filled(w, SentOn(w), old(KeptIn(buf)), old(EntriesOf(ctx.requestId, script)), script)
    ensures promoted <==> Accepts(policies, FirstStatus(CallsOf(script))) && ctx.requestId != "" && buf != null
    ensures SettlesRequest(store, promoted, req, ctx, buf, FirstStatus(CallsOf(script)), now, at)
    ensures AnswersWith(script, FirstStatus(CallsOf(script)))
  {
    var status := RecordStatus(w, ctx.requestId, buf, script);
    assert store.rows == old(store.rows) && store.fired == old(store.fired);
    promoted := PromoteByPolicy(store, policies, req, ctx, buf, status, now, at);
  }

  /** The first policy that accepts the status decides. */
  method PromoteByPolicy(store: S.Store, policies: seq<Policy>, req: Request, ctx: C.Context, buf: Buffer?,
                         status: Int64, now: Time, at: Time)
    returns (promoted: bool)
    requires store.Valid() && (buf != null ==> buf.Valid())
    modifies store`rows, store`fired
    ensures store.Valid()
    ensures promoted <==> Accepts(policies, status) && ctx.requestId != "" && buf != null
    ensures SettlesRequest(store, promoted, req, ctx, buf, status, now, at)
  {
    for i := 0 to |policies|
      invariant forall j :: 0 <= j < i ==> !policies[j](status)
      invariant LeavesAlone(store) && store.Valid()
    {
      if policies[i](status) {
        promoted := PromoteFromRequest(store, req, ctx, buf, status, now, at);
        return;
      }
    }
    promoted := false;
  }

  method PromoteFromRequest(store: S.Store, req: Request, ctx: C.Context, buf: Buffer?, status: Int64, now: Time, at: Time)
    returns (promoted: bool)
    requires store.Valid() && (buf != null ==> buf.Valid())
    modifies store`rows, store`fired
    ensures store.Valid()
    ensures promoted <==> ctx.requestId != "" && buf != null
    ensures SettlesRequest(store, promoted, req, ctx, buf, status, now, at)
  {
    if ctx.requestId == "" || buf == null {
      return false;
    }
    var tags := buf.Tags();
    var entries := buf.Entries(now);
    var t := Trace(ctx.requestId, ctx.parentId, "", status, req.path, req.verb, req.userAgent, req.remoteAddr, "",
                   tags, entries, buf.requestBody, buf.responseBody, now, "", "", "", "", "", ZERO_TIME, 0);
    PromoteThenLookup(store.rows, t, at);
    var stored := store.PromoteAt(t, at);
    if stored.Ok? {
      RequestReadsBack(store.rows, req, ctx, buf.limit, KeptIn(buf), status, now, at);
    }
    return true;
  }

  // ----- the whole chain -----

  /** The options of the three middlewares. */
  datatype Config = Config(bufferLimit: int, maxSizes: seq<Int64>, redactor: Option<Redactor>, policies: seq<Policy>)
  {
    function Limit(): nat {
      if bufferLimit > 0 then bufferLimit else 0
    }

    function MaxSize(): Int64 {
      ConfiguredSize(maxSizes)
    }
  }

  function RequestBodyKept(cfg: Config, body: Option<Body>): Bytes {
    if body.Some? && Captures(body.value, cfg.MaxSize()) then Redact(cfg.redactor, Prefix(body.value.data, cfg.MaxSize())) else []
  }

  /** What a request leaves in its buffer: the handler's entries and tags, and the redacted beginnings
      of the body that came and of the body that was sent. */
  function Collected(cfg: Config, body: Option<Body>, entries: seq<Entry>, script: seq<Action>): Kept {
    var calls := CallsOf(script);
    Kept(entries, TagsAfter(None, script),
         RequestBodyKept(cfg, body),
         if Writes(calls) then Redact(cfg.redactor, Prefix(BodyOf(calls), cfg.MaxSize())) else [])
  }

  /** What happens to a request before it meets the policies. */
  method Admit(cfg: Config, headers: C.Headers, response: C.Headers, body: Option<Body>, client: InnerWriter, gen: string, start: Time)
    returns (ctx: C.Context, buf: Buffer, crw: CaptureResponseWriter, downstream: Option<Body>)
    requires KeepsLength(cfg.redactor)
    modifies response
    ensures ctx == C.AssignFrom(old(headers.values), gen)
    ensures response.values == old(response.values)[C.ID_HEADER := ctx.requestId]
    ensures cfg.redactor.None? ==> downstream == body
    ensures fresh(buf) && fresh(buf.tail) && fresh(crw) && fresh(crw.capBuf.mem)
    ensures Ready(Capturing(crw), buf) && crw.inner == client
    ensures buf.limit == cfg.Limit() && KeptIn(buf) == Kept([], None, RequestBodyKept(cfg, body), [])
    ensures crw.maxSize == cfg.MaxSize() && crw.redactor == cfg.redactor && crw.received == [] && !crw.used
  {
    var startTime;
    ctx, startTime, buf := C.CorrelationMiddleware(headers, response, cfg.bufferLimit, gen, start);
    downstream := CaptureRequest(buf, body, cfg.MaxSize(), cfg.redactor);
    crw := new CaptureResponseWriter(client, cfg.MaxSize(), buf, cfg.redactor);
  }

  lemma CollectedIsFilled(cfg: Config, body: Option<Body>, w: Writer, s: Sent, entries: seq<Entry>, script: seq<Action>)
    requires w.Capturing? && w.crw.maxSize == cfg.MaxSize() && w.crw.redactor == cfg.redactor
    requires s.received == [] && !s.used
    ensures Filled(w, Sending(w, s, CallsOf(script)), Kept([], None, RequestBodyKept(cfg, body), []), entries, script) ==
            Collected(cfg, body, entries, script)
  {
    SendingMeans(w, s, CallsOf(script));
    assert [] + BodyOf(CallsOf(script)) == BodyOf(CallsOf(script));
    assert [] + entries == entries;
  }

  /** What reading the ID of a served request gives: the view of the entries, the handler's tags, and
      the redacted beginnings of the body that came in and of the body that went out. */
  ghost predicate ReadsBackServed(rows: seq<Row>, cfg: Config, req: Request, ctx: C.Context, body: Option<Body>,
                                  entries: seq<Entry>, script: seq<Action>, status: Int64, now: Time, at: Time)
  {
    var max, sent := cfg.MaxSize(), BodyOf(CallsOf(script));
    ReadsBackRequest(rows, req, ctx, status, TagsAfter(None, script),
                     View(if cfg.bufferLimit > 0 then cfg.bufferLimit else 0, entries, now),
                     if body.Some? && Captures(body.value, max) then Redact(cfg.redactor, Prefix(body.value.data, max)) else [],
                     if Writes(CallsOf(script)) then Redact(cfg.redactor, Prefix(sent, max)) else [], at)
  }

  /** An admitted request, from the handler to the store. */
  method Finish(store: S.Store, cfg: Config, req: Request, ctx: C.Context, buf: Buffer, crw: CaptureResponseWriter,
                ghost body: Option<Body>, script: seq<Action>, now: Time, at: Time)
    returns (promoted: bool)
    requires store.Valid() && Ready(Capturing(crw), buf) && CanLog(script)
    requires buf.limit == cfg.Limit() && KeptIn(buf) == Kept([], None, RequestBodyKept(cfg, body), [])
    requires crw.maxSize == cfg.MaxSize() && crw.redactor == cfg.redactor && crw.received == [] && !crw.used
    modifies store`rows, store`fired, Capturing(crw).Owned(), crw.inner, Memory(buf), SinksOf(script)
    ensures store.Valid()
    ensures crw.inner.written == old(crw.inner.written) + BodyOf(CallsOf(script))
    ensures crw.inner.codes == old(crw.inner.codes) + CodesOf(CallsOf(script))
    ensures promoted <==> Accepts(cfg.policies, FirstStatus(CallsOf(script))) && ctx.requestId != ""
    ensures AnswersWith(script, FirstStatus(CallsOf(script)))
    ensures var kept := Collected(cfg, body, old(EntriesOf(ctx.requestId, script)), script);
            Settles(store, promoted, ctx.requestId,
                    RequestTrace(req, ctx, cfg.Limit(), kept, FirstStatus(CallsOf(script)), now), at)
    ensures promoted && !HasId(old(store.rows), ctx.requestId) ==>
              ReadsBackServed(store.rows, cfg, req, ctx, body, old(EntriesOf(ctx.requestId, script)), script,
                              FirstStatus(CallsOf(script)), now, at)
  {
    ghost var before := SentOn(Capturing(crw));
    SendingMeans(Capturing(crw), before, CallsOf(script));
    CollectedIsFilled(cfg, body, Capturing(crw), before, EntriesOf(ctx.requestId, script), script);
    promoted := AutoPromote(store, cfg.policies, req, ctx, buf, Capturing(crw), script, now, at);
  }

  /** A request from its headers to the store, through correlation, body capture and the policies:
      the client gets what the handler sent; and when a policy accepts the first status, the trace
      read back for the request's ID holds all that the handler logged, as the buffer's limit shows it,
      its tags, and both redacted bodies. */
  method Serve(store: S.Store, cfg: Config, req: Request, headers: C.Headers, response: C.Headers, body: Option<Body>,
               client: InnerWriter, script: seq<Action>, gen: string, start: Time, now: Time, at: Time)
    returns (promoted: bool, downstream: Option<Body>)
    requires store.Valid() && KeepsLength(cfg.redactor) && CanLog(script)
    modifies store`rows, store`fired, response, client, SinksOf(script)
    ensures store.Valid()
    ensures client.written == old(client.written) + BodyOf(CallsOf(script))
    ensures client.codes == old(client.codes) + CodesOf(CallsOf(script))
    ensures response.values == old(response.values)[C.ID_HEADER := C.AssignFrom(old(headers.values), gen).requestId]
    ensures cfg.redactor.None? ==> downstream == body
    ensures var ctx := C.AssignFrom(old(headers.values), gen);
            var kept := Collected(cfg, body, old(EntriesOf(ctx.requestId, script)), script);
            var status := FirstStatus(CallsOf(script));
            && (promoted <==> Accepts(cfg.policies, status) && ctx.requestId != "")
            && AnswersWith(script, status)
            && Settles(store, promoted, ctx.requestId, RequestTrace(req, ctx, cfg.Limit(), kept, status, now), at)
            && (promoted && !HasId(old(store.rows), ctx.requestId) ==>
                  ReadsBackServed(store.rows, cfg, req, ctx, body, old(EntriesOf(ctx.requestId, script)), script, status, now, at))
  {
    assert forall m :: m in AttrsOf(script) ==> allocated(m);
    var ctx, buf, crw;
    ctx, buf, crw, downstream := Admit(cfg, headers, response, body, client, gen, start);
    assert forall m :: m in AttrsOf(script) ==> m[..] == old(m[..]);
    assert EntriesOf(ctx.requestId, script) == old(EntriesOf(ctx.requestId, script));
    assert fresh(Capturing(crw).Owned()) && fresh(Memory(buf));
    promoted := Finish(store, cfg, req, ctx, buf, crw, body, script, now, at);
  }
}
