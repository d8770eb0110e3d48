/** The middleware, the transport and StartOperation, called in any order, perform exactly the steps
    of a distributed run. */
module Network {
  import opened Types
  import opened Correlation
  import H = Handler
  import P = Promotion

  /** The contexts of the requests handled so far, by all services, and the operations started. */
  class Network {
    var contexts: seq<Context>
    var operations: seq<P.Operation>
    ghost var state: System

    ghost predicate Valid()
      reads this
    {
      && |contexts| == |state.nodes| && |operations| == |state.operations|
      && (forall i :: 0 <= i < |contexts| ==> contexts[i] == state.nodes[i].ctx)
      && (forall k :: 0 <= k < |operations| ==> Mirrors(operations[k], state.operations[k]))
    }

    static ghost predicate Mirrors(op: P.Operation, o: Operation) {
      op.id == o.id && op.originRequestId == o.origin && op.parentRequestId == o.parentId
    }

    constructor ()
      ensures Valid() && state == INIT
    {
      contexts, operations, state := [], [], INIT;
    }

    /** A request from outside reaches a service. */
    method Edge(request: Headers, bufferLimit: int, gen: string, now: Time) returns (response: Headers)
      requires Valid()
      modifies this
      ensures Valid() && fresh(response)
      ensures state == Step(old(state), Event.Edge(request.values, gen))
      ensures response.values == map[ID_HEADER := contexts[|old(contexts)|].requestId]
    {
      response := new Headers(map[]);
      var ctx, _, _ := CorrelationMiddleware(request, response, bufferLimit, gen, now);
      contexts := contexts + [ctx];
      state := Step(state, Event.Edge(request.values, gen));
    }

    /** The handler of a request sends one through the transport to a service. */
    method Call(caller: nat, headers: Headers, bufferLimit: int, gen: string, now: Time) returns (response: Headers)
      requires Valid() && caller < |contexts|
      modifies this
      ensures Valid() && fresh(response)
      ensures state == Step(old(state), Event.Call(caller, headers.values, gen))
      ensures response.values == map[ID_HEADER := contexts[|old(contexts)|].requestId]
    {
      var req := new Request(headers, contexts[caller].requestId);
      var sent := RoundTrip(req);
      response := new Headers(map[]);
      var ctx, _, _ := CorrelationMiddleware(sent.header, response, bufferLimit, gen, now);
      contexts := contexts + [ctx];
      state := Step(state, Event.Call(caller, headers.values, gen));
    }

    /** An operation starts in the context of a request, or in a plain one. */
    method Start(node: Option<nat>, name: string, attrs: seq<H.Attr>, gen: string, now: Time) returns (op: P.Operation)
      requires Valid() && (node.Some? ==> node.value < |contexts|)
      modifies this
      ensures Valid() && fresh(op) && operations == old(operations) + [op]
      ensures state == Step(old(state), Event.Start(node, gen))
    {
      var ctx := if node.Some? then contexts[node.value] else Context("", "");
      op := new P.Operation(ctx, name, attrs, gen, now);
      operations := operations + [op];
      state := Step(state, Event.Start(node, gen));
    }
  }
}
