/** Request IDs across services (correlation.go), and operations started inside requests. */
module Correlation {
  import opened Types
  import opened LogBuffer

  const ID_HEADER := "X-Request-ID"
  const PARENT_HEADER := "X-Parent-Request-ID"

  /** `Header.Get`: a missing header reads as "". */
  function HeaderValue(values: Tags, name: string): string {
    if name in values then values[name] else ""
  }

  /** A mutable header map, by canonical name. */
  class Headers {
    var values: Tags

    constructor (values: Tags)
      ensures this.values == values
    {
      this.values := values;
    }

    method Get(name: string) returns (value: string)
      ensures value == HeaderValue(values, name)
    {
      if name in values {
        return values[name];
      }
      return "";
    }

    method Set(name: string, value: string)
      modifies this
      ensures values == old(values)[name := value]
    {
      values := values[name := value];
    }
  }

  /** The IDs that a request context carries. */
  datatype Context = Context(requestId: string, parentId: string)

  /** The ID rules of the middleware; `gen` is what generateID would return. */
  function Assign(incoming: string, parentHeader: string, gen: string): Context {
    if parentHeader != "" then Context(if incoming != "" then incoming else gen, parentHeader)
    else Context(gen, incoming)
  }

  function AssignFrom(values: Tags, gen: string): Context {
    Assign(HeaderValue(values, ID_HEADER), HeaderValue(values, PARENT_HEADER), gen)
  }

  /** What the middleware puts into the request's context, and its response header. */
  method CorrelationMiddleware(request: Headers, response: Headers, bufferLimit: int, gen: string, now: Time)
    returns (ctx: Context, startTime: Time, buf: Buffer)
    modifies response
    ensures ctx == AssignFrom(old(request.values), gen)
    ensures var sent := old(request.values);
            var incoming := if "X-Request-ID" in sent then sent["X-Request-ID"] else "";
            var parent := if "X-Parent-Request-ID" in sent then sent["X-Parent-Request-ID"] else "";
            && ctx.requestId == (if incoming != "" && parent != "" then incoming else gen)
            && ctx.parentId == (if parent != "" then parent else incoming)
    ensures response.values == old(response.values)["X-Request-ID" := ctx.requestId]
    ensures startTime == now
    ensures fresh(buf) && fresh(buf.tail) && buf.Valid() && buf.history == []
    ensures buf.limit == (if bufferLimit > 0 then bufferLimit else 0)
    ensures buf.tags == None && buf.requestBody == buf.responseBody == []
  {
    var incomingId := request.Get(ID_HEADER);
    var parentId := request.Get(PARENT_HEADER);
    var requestId := incomingId;
    if requestId == "" {
      requestId := gen;
    }
    if parentId == "" && incomingId != "" {
      parentId := incomingId;
      requestId := gen;
    }
    response.Set(ID_HEADER, requestId);
    ctx := Context(requestId, parentId);
    startTime := now;
    if bufferLimit > 0 {
      buf := new Buffer(bufferLimit);
    } else {
      buf := new Buffer(0);
    }
  }

  /** A service gives a request its own new ID unless the caller sent both headers. */
  lemma OwnIdIff(incoming: string, parentHeader: string, gen: string)
    requires gen != incoming
    ensures Assign(incoming, parentHeader, gen).requestId == gen <==> incoming == "" || parentHeader == ""
  {
  }

  /** With both headers two requests can end up with one ID. */
  lemma BothHeadersRepeatIds(incoming: string, parentHeader: string, gen1: string, gen2: string)
    requires incoming != "" && parentHeader != ""
    ensures Assign(incoming, parentHeader, gen1) == Assign(incoming, parentHeader, gen2)
  {
  }

  class Request {
    const header: Headers
    const contextId: string

    constructor (header: Headers, contextId: string)
      ensures this.header == header && this.contextId == contextId
    {
      this.header, this.contextId := header, contextId;
    }

    /** `http.Request.Clone` copies the headers too. */
    method Clone() returns (r: Request)
      ensures fresh(r) && fresh(r.header) && r.header.values == header.values && r.contextId == contextId
    {
      var copy := new Headers(header.values);
      r := new Request(copy, contextId);
    }
  }

  /** The headers a request arrives with when it was sent from a context with this ID. */
  function SentValues(values: Tags, contextId: string): Tags {
    if contextId != "" then values[ID_HEADER := contextId] else values
  }

  /** `RoundTrip` sets the header on a clone: it changes no request that exists, the caller's included. */
  method RoundTrip(req: Request) returns (sent: Request)
    ensures sent.header.values == SentValues(req.header.values, req.contextId)
    ensures req.contextId != "" ==> sent.header.values == req.header.values["X-Request-ID" := req.contextId]
    ensures req.contextId == "" ==> sent == req
    ensures req.contextId != "" ==> fresh(sent) && fresh(sent.header)
  {
    if req.contextId != "" {
      var clone := req.Clone();
      clone.header.Set(ID_HEADER, req.contextId);
      return clone;
    }
    return req;
  }

  // ----- the distributed run -----

  /** A handled request: its ID and parent, and the node that called it, if another service did. */
  datatype Node = Node(ctx: Context, caller: Option<nat>)

  /** A started operation; `node` is the request it was started in, if any. */
  datatype Operation = Operation(id: string, origin: string, parentId: string, node: Option<nat>)

  datatype System = System(nodes: seq<Node>, operations: seq<Operation>)

  const INIT := System([], [])

  /** A request from outside, with any headers; a call from a node's handler through the correlation
      transport; an operation started in a node's context or in none. */
  datatype Event =
    | Edge(headers: Tags, gen: string)
    | Call(caller: nat, headers: Tags, gen: string)
    | Start(node: Option<nat>, gen: string)

  predicate Refers(s: System, e: Event) {
    match e
    case Edge(_, _) => true
    case Call(c, _, _) => c < |s.nodes|
    case Start(n, _) => n.Some? ==> n.value < |s.nodes|
  }

  function ContextOf(s: System, n: Option<nat>): Context
    requires n.Some? ==> n.value < |s.nodes|
  {
    if n.Some? then s.nodes[n.value].ctx else Context("", "")
  }

  /** The headers that the middleware sees. */
  function Arriving(s: System, e: Event): Tags
    requires Refers(s, e)
  {
    match e
    case Edge(headers, _) => headers
    case Call(c, headers, _) => SentValues(headers, s.nodes[c].ctx.requestId)
    case Start(_, _) => map[]
  }

  function Step(s: System, e: Event): System
    requires Refers(s, e)
  {
    match e
    case Edge(_, gen) => s.(nodes := s.nodes + [Node(AssignFrom(Arriving(s, e), gen), None)])
    case Call(c, _, gen) => s.(nodes := s.nodes + [Node(AssignFrom(Arriving(s, e), gen), Some(c))])
    case Start(n, gen) =>
      var ctx := ContextOf(s, n);
      s.(operations := s.operations + [Operation(gen, ctx.requestId, ctx.parentId, n)])
  }

  /** Is the ID that of a request, a parent or an operation? */
  ghost predicate IsKnown(s: System, id: string) {
    || (exists i :: 0 <= i < |s.nodes| && (s.nodes[i].ctx.requestId == id || s.nodes[i].ctx.parentId == id))
    || (exists k :: 0 <= k < |s.operations| && s.operations[k].id == id)
  }

  /** All that is assumed of a step: generated IDs are new, and callers exist. */
  ghost predicate GeneratesNew(s: System, e: Event) {
    && Refers(s, e) && e.gen != "" && !IsKnown(s, e.gen)
    && e.gen != HeaderValue(Arriving(s, e), ID_HEADER) && e.gen != HeaderValue(Arriving(s, e), PARENT_HEADER)
  }

  ghost predicate AllGenerateNew(s: System, events: seq<Event>)
    decreases |events|
  {
    events == [] || (GeneratesNew(s, events[0]) && AllGenerateNew(Step(s, events[0]), events[1..]))
  }

  function Run(s: System, events: seq<Event>): System
    requires AllGenerateNew(s, events)
    decreases |events|
  {
    if events == [] then s else Run(Step(s, events[0]), events[1..])
  }

  /** Headers that cannot repeat an ID: a request from outside with both headers brings an ID of its
      own, and a call sets no parent header. */
  ghost predicate Unambiguous(s: System, e: Event)
    requires Refers(s, e)
  {
    match e
    case Edge(h, _) =>
      var incoming, parent := HeaderValue(h, ID_HEADER), HeaderValue(h, PARENT_HEADER);
      incoming != "" && parent != "" ==> !IsKnown(s, incoming) && incoming != parent
    case Call(_, h, _) => HeaderValue(h, PARENT_HEADER) == ""
    case Start(_, _) => true
  }

  ghost predicate AllUnambiguous(s: System, events: seq<Event>)
    requires AllGenerateNew(s, events)
    decreases |events|
  {
    events == [] || (Unambiguous(s, events[0]) && AllUnambiguous(Step(s, events[0]), events[1..]))
  }

  // ----- the invariant -----

  ghost predicate NodesAreApart(nodes: seq<Node>) {
    && (forall i :: 0 <= i < |nodes| ==> nodes[i].ctx.requestId != "")
    && (forall i, j :: 0 <= i < j < |nodes| ==> nodes[i].ctx.requestId != nodes[j].ctx.requestId)
  }

  /** A parent is no later node, nor the node itself. */
  ghost predicate ParentsAreOlder(nodes: seq<Node>) {
    forall i, j :: 0 <= i <= j < |nodes| ==> nodes[i].ctx.parentId != nodes[j].ctx.requestId
  }

  ghost predicate CallersAreParents(nodes: seq<Node>) {
    forall i :: 0 <= i < |nodes| && nodes[i].caller.Some? ==>
                  nodes[i].caller.value < i && nodes[i].ctx.parentId == nodes[nodes[i].caller.value].ctx.requestId
  }

  ghost predicate OperationsAreApart(s: System) {
    && (forall k, l :: 0 <= k < l < |s.operations| ==> s.operations[k].id != s.operations[l].id)
    && (forall k, i :: 0 <= k < |s.operations| && 0 <= i < |s.nodes| ==> s.operations[k].id != s.nodes[i].ctx.requestId)
  }

  /** All IDs are different; a called node's parent is its caller, an earlier node; and no parent is
      younger than its child. */
  ghost predicate Forest(s: System) {
    NodesAreApart(s.nodes) && ParentsAreOlder(s.nodes) && CallersAreParents(s.nodes) && OperationsAreApart(s)
  }

  ghost predicate KnowsItsOrigin(s: System, o: Operation) {
    (o.node.Some? ==> o.node.value < |s.nodes|) && ContextOf(s, o.node) == Context(o.origin, o.parentId)
  }

  ghost predicate AllKnowTheirOrigin(s: System) {
    forall k :: 0 <= k < |s.operations| ==> KnowsItsOrigin(s, s.operations[k])
  }

  lemma StepKeepsOrigins(s: System, e: Event)
    requires AllKnowTheirOrigin(s) && Refers(s, e)
    ensures AllKnowTheirOrigin(Step(s, e))
  {
  }

  /** A step keeps the forest exactly when its headers are unambiguous. */
  lemma StepKeepsForestIff(s: System, e: Event)
    requires Forest(s) && GeneratesNew(s, e)
    ensures Forest(Step(s, e)) <==> Unambiguous(s, e)
  {
    match e
    case Edge(_, gen) =>
      var node := Node(AssignFrom(Arriving(s, e), gen), None);
      NewNodeKeepsForestIff(s, node);
    case Call(c, _, gen) =>
      var node := Node(AssignFrom(Arriving(s, e), gen), Some(c));
      NewNodeKeepsForestIff(s, node);
      assert s.nodes[c].ctx.requestId != "" && IsKnown(s, s.nodes[c].ctx.requestId);
    case Start(_, _) =>
  }

  lemma NewNodeKeepsForestIff(s: System, node: Node)
    requires Forest(s) && (node.caller.Some? ==> node.caller.value < |s.nodes|)
    ensures Forest(s.(nodes := s.nodes + [node])) <==>
            && node.ctx.requestId != "" && !IsKnown(s, node.ctx.requestId)
            && node.ctx.parentId != node.ctx.requestId
            && (node.caller.Some? ==> node.ctx.parentId == s.nodes[node.caller.value].ctx.requestId)
  {
    var nodes := s.nodes + [node];
    var id := node.ctx.requestId;
    assert nodes[|s.nodes|] == node && forall i :: 0 <= i < |s.nodes| ==> nodes[i] == s.nodes[i];
  }

  /** A repeated ID stays in the system for good. */
  lemma StepKeepsFault(s: System, e: Event)
    requires Refers(s, e) && Forest(Step(s, e))
    ensures Forest(s)
  {
    var s' := Step(s, e);
    assert forall i :: 0 <= i < |s.nodes| ==> s'.nodes[i] == s.nodes[i];
    assert forall k :: 0 <= k < |s.operations| ==> s'.operations[k] == s.operations[k];
  }

  lemma {:induction false} RunKeepsFault(s: System, events: seq<Event>)
    requires AllGenerateNew(s, events) && Forest(Run(s, events))
    ensures Forest(s)
    decreases |events|
  {
    if events != [] {
      RunKeepsFault(Step(s, events[0]), events[1..]);
      StepKeepsFault(s, events[0]);
    }
  }

  lemma {:induction false} RunKeepsOrigins(s: System, events: seq<Event>)
    requires AllGenerateNew(s, events) && AllKnowTheirOrigin(s)
    ensures AllKnowTheirOrigin(Run(s, events))
    decreases |events|
  {
    if events != [] {
      StepKeepsOrigins(s, events[0]);
      RunKeepsOrigins(Step(s, events[0]), events[1..]);
    }
  }

  /** A whole run ends in a forest exactly when the headers of all its steps were unambiguous. */
  lemma {:induction false} RunKeepsForestIff(s: System, events: seq<Event>)
    requires AllGenerateNew(s, events) && Forest(s)
    ensures Forest(Run(s, events)) <==> AllUnambiguous(s, events)
    decreases |events|
  {
    if events != [] {
      var s1 := Step(s, events[0]);
      StepKeepsForestIff(s, events[0]);
      if Unambiguous(s, events[0]) {
        RunKeepsForestIff(s1, events[1..]);
      } else if Forest(Run(s1, events[1..])) {
        RunKeepsFault(s1, events[1..]);
      }
    }
  }

  // ----- ancestors -----

  /** The node that has the given ID, as one would look it up in a store of traces. */
  function Lookup(nodes: seq<Node>, id: string): (r: Option<nat>)
    ensures r.Some? ==> r.value < |nodes| && nodes[r.value].ctx.requestId == id
    ensures r.None? ==> forall i :: 0 <= i < |nodes| ==> nodes[i].ctx.requestId != id
  {
    if nodes == [] then None
    else if nodes[|nodes| - 1].ctx.requestId == id then Some(|nodes| - 1)
    else Lookup(nodes[..|nodes| - 1], id)
  }

  /** Follows parent IDs from node i for as long as they lead to a node. */
  function Root(s: System, i: nat): (root: nat)
    requires Forest(s) && i < |s.nodes|
    ensures root <= i && Lookup(s.nodes, s.nodes[root].ctx.parentId) == None
    decreases i
  {
    match Lookup(s.nodes, s.nodes[i].ctx.parentId)
    case None => i
    case Some(j) => Root(s, j)
  }

  /** Over every distributed run with new generated IDs: IDs never repeat, called requests have their
      caller's ID as parent and no parent is younger than its child exactly when all headers were
      unambiguous. Then every walk along parents ends at a request from outside. */
  lemma CorrelationIsAForest(events: seq<Event>)
    requires AllGenerateNew(INIT, events)
    ensures var s := Run(INIT, events);
            && (Forest(s) <==> AllUnambiguous(INIT, events))
            && (Forest(s) ==> forall i :: 0 <= i < |s.nodes| ==> WalksToTheEdge(s, i))
  {
    RunKeepsForestIff(INIT, events);
    var s := Run(INIT, events);
    if Forest(s) {
      forall i | 0 <= i < |s.nodes|
        ensures WalksToTheEdge(s, i)
      {
        CalledNodesHaveParents(s, Root(s, i));
        CalledNodesHaveParents(s, i);
      }
    }
  }

  /** The parent of a called request is its caller; a parent that is a request is older and leads to
      the same root, which nobody called. */
  ghost predicate WalksToTheEdge(s: System, i: nat)
    requires Forest(s) && i < |s.nodes|
  {
    && s.nodes[Root(s, i)].caller.None?
    && var parent := Lookup(s.nodes, s.nodes[i].ctx.parentId);
    && (parent.Some? ==> parent.value < i && Root(s, parent.value) == Root(s, i))
    && (s.nodes[i].caller.Some? ==> parent == s.nodes[i].caller)
  }

  lemma CalledNodesHaveParents(s: System, i: nat)
    requires Forest(s) && i < |s.nodes|
    ensures s.nodes[i].caller.Some? ==> Lookup(s.nodes, s.nodes[i].ctx.parentId) == s.nodes[i].caller
  {
  }

  /** Every operation of a run carries the ID and the parent of the request it was started in; with
      unambiguous headers its own ID is no request's. */
  lemma OperationsKnowTheirOrigin(events: seq<Event>, k: nat)
    requires AllGenerateNew(INIT, events) && k < |Run(INIT, events).operations|
    ensures var s := Run(INIT, events);
            && KnowsItsOrigin(s, s.operations[k])
            && (AllUnambiguous(INIT, events) ==> Lookup(s.nodes, s.operations[k].id) == None)
  {
    RunKeepsOrigins(INIT, events);
    RunKeepsForestIff(INIT, events);
  }

  /** Two requests that bring the same two headers share an ID. */
  lemma RepeatedHeadersShareAnId()
    ensures var h := map[ID_HEADER := "id", PARENT_HEADER := "parent"];
            var events := [Edge(h, "g1"), Edge(h, "g2")];
            AllGenerateNew(INIT, events) && !AllUnambiguous(INIT, events) && !Forest(Run(INIT, events))
  {
    var h := map[ID_HEADER := "id", PARENT_HEADER := "parent"];
    var node := Node(Context("id", "parent"), None);
    var e1, e2 := Edge(h, "g1"), Edge(h, "g2");
    var s1 := System([node], []);
    assert Step(INIT, e1) == s1 && Step(s1, e2).nodes == [node, node];
    assert IsKnown(s1, "id") by {
      assert s1.nodes[0].ctx.requestId == "id";
    }
    assert [e1, e2][1..] == [e2] && [e2][1..] == [];
    RunKeepsForestIff(INIT, [e1, e2]);
  }
}
