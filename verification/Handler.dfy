/** The slog handler of handler.go: attributes inherited along derivations, and captured records. */
module Handler {
  import opened Types
  import opened LogBuffer
  import opened Slices

  datatype Attr = Attr(key: string, value: string)

  const REQUEST_ID := "request_id"
  const OPERATION_ID := "operation_id"

  datatype Record = Record(time: Time, level: string, message: string, attrs: seq<Attr>)

  /** What a context carries for the handler: a request ID or "", an operation's ID, a buffer. */
  datatype LogContext = LogContext(requestId: string, operation: Option<string>, buffer: Buffer?)
  {
    ghost function Frame(): set<object> {
      if buffer == null then {} else {buffer, buffer.tail}
    }
  }

  // ----- which attributes an entry gets -----

  ghost predicate Mentions(list: seq<Attr>, key: string) {
    exists i :: 0 <= i < |list| && list[i].key == key
  }

  /** The value of the last attribute with the key. */
  ghost function LastValue(list: seq<Attr>, key: string): string {
    if list == [] then ""
    else if list[|list| - 1].key == key then list[|list| - 1].value
    else LastValue(list[..|list| - 1], key)
  }

  /** The last-wins merge of the list without request_id. */
  ghost predicate Merges(m: Tags, list: seq<Attr>) {
    && (forall k :: k in m <==> k != REQUEST_ID && Mentions(list, k))
    && (forall k :: k in m ==> m[k] == LastValue(list, k))
  }

  /** The merge, with operation_id forced to the operation of the context. */
  ghost predicate EntryAttrs(m: Tags, list: seq<Attr>, operation: Option<string>) {
    && (forall k :: k in m <==> (k != REQUEST_ID && Mentions(list, k)) || (operation.Some? && k == OPERATION_ID))
    && (forall k :: k in m ==> m[k] == if operation.Some? && k == OPERATION_ID then operation.value else LastValue(list, k))
  }

  ghost function LastWins(list: seq<Attr>): (m: Tags)
    ensures Merges(m, list)
  {
    if list == [] then map[]
    else
      var front, a := list[..|list| - 1], list[|list| - 1];
      assert list == front + [a];
      MergeStep(LastWins(front), front, a);
      if a.key != REQUEST_ID then LastWins(front)[a.key := a.value] else LastWins(front)
  }

  ghost function EntryMap(list: seq<Attr>, operation: Option<string>): (m: Tags)
    ensures EntryAttrs(m, list, operation)
  {
    if operation.Some? then LastWins(list)[OPERATION_ID := operation.value] else LastWins(list)
  }

  /** The entry that a record becomes. */
  ghost function EntryFor(r: Record, list: seq<Attr>, operation: Option<string>): (e: Entry)
    ensures Tells(e, r, list, operation)
  {
    var m := EntryMap(list, operation);
    assert operation.Some? ==> OPERATION_ID in m;
    forall i | 0 <= i < |list| {
      LastValueAt(list, i);
    }
    Entry(r.time, r.level, r.message, if m == map[] then None else Some(m))
  }

  /** The entry has the record's time, level and message; the operation's ID under "operation_id"; and
      of the other keys in the list, but for "request_id", the value that stands last. */
  ghost predicate Tells(e: Entry, r: Record, list: seq<Attr>, operation: Option<string>) {
    && e.time == r.time && e.level == r.level && e.message == r.message && e.attrs != Some(map[])
    && (operation.Some? ==> e.attrs.Some? && "operation_id" in e.attrs.value && e.attrs.value["operation_id"] == operation.value)
    && (e.attrs.Some? ==> forall k :: k in e.attrs.value ==>
                                        (Mentions(list, k) && k != "request_id") || (operation.Some? && k == "operation_id"))
    && (forall i :: 0 <= i < |list| && IsLast(list, i) && list[i].key != "request_id"
                    && !(operation.Some? && list[i].key == "operation_id") ==>
                      e.attrs.Some? && list[i].key in e.attrs.value && e.attrs.value[list[i].key] == list[i].value)
  }

  /** No later attribute has the same key. */
  ghost predicate IsLast(list: seq<Attr>, i: int)
    requires 0 <= i < |list|
  {
    forall j :: i < j < |list| ==> list[j].key != list[i].key
  }

  lemma {:induction false} LastValueAt(list: seq<Attr>, i: int)
    requires 0 <= i < |list|
    ensures IsLast(list, i) ==> LastValue(list, list[i].key) == list[i].value
  {
    if i < |list| - 1 && IsLast(list, i) {
      var front := list[..|list| - 1];
      assert IsLast(front, i);
      LastValueAt(front, i);
    }
  }

  lemma MergeIsUnique(m: Tags, n: Tags, list: seq<Attr>)
    requires Merges(m, list) && Merges(n, list)
    ensures m == n
  {
    assert m.Keys == n.Keys;
  }

  lemma MergeStep(m: Tags, list: seq<Attr>, a: Attr)
    requires Merges(m, list)
    ensures Merges(if a.key != REQUEST_ID then m[a.key := a.value] else m, list + [a])
  {
    var longer := list + [a];
    assert longer[..|longer| - 1] == list;
    forall k
      ensures Mentions(longer, k) <==> Mentions(list, k) || k == a.key
    {
      if k == a.key {
        assert longer[|list|].key == k;
      }
      if i :| 0 <= i < |list| && list[i].key == k {
        assert longer[i].key == k;
      }
    }
  }

  /** The first attribute named "request_id" brings the new ID, and without one the ID stays. */
  lemma {:induction false} DerivedIdIsFirst(current: string, more: seq<Attr>)
    ensures forall i :: 0 <= i < |more| && more[i].key == "request_id" && (forall j :: 0 <= j < i ==> more[j].key != "request_id") ==>
                          DerivedId(current, more) == more[i].value
    ensures (forall i :: 0 <= i < |more| ==> more[i].key != "request_id") ==> DerivedId(current, more) == current
  {
    if more != [] && more[0].key != "request_id" {
      var rest := more[1..];
      DerivedIdIsFirst(current, rest);
      forall i | 0 <= i < |more| && more[i].key == "request_id" && forall j :: 0 <= j < i ==> more[j].key != "request_id"
        ensures DerivedId(current, more) == more[i].value
      {
        assert rest[i - 1] == more[i] && forall j :: 0 <= j < i - 1 ==> rest[j] == more[j + 1];
      }
    }
  }

  /** The request ID after deriving with more attributes: the first request_id among them, if any. */
  function DerivedId(current: string, more: seq<Attr>): string {
    if more == [] then current
    else if more[0].key == REQUEST_ID then more[0].value
    else DerivedId(current, more[1..])
  }

  /** What a wrapped handler was derived with. */
  datatype Given = GivenAttrs(attrs: seq<Attr>) | GivenGroup(name: string)

  /** Where a wrapped handler and all that are derived from it put their records. */
  class Sink {
    var handled: seq<(seq<Given>, Record)>

    constructor ()
      ensures handled == []
    {
      handled := [];
    }
  }

  /** The wrapped handler: derivations add to what it was given, and its records say what that was. */
  datatype Inner = Inner(sink: Sink, given: seq<Given>)
  {
    function WithAttrs(attrs: seq<Attr>): Inner {
      Inner(sink, given + [GivenAttrs(attrs)])
    }

    function WithGroup(name: string): Inner {
      Inner(sink, given + [GivenGroup(name)])
    }

    method Handle(r: Record)
      modifies sink
      ensures sink.handled == old(sink.handled) + [(given, r)]
    {
      sink.handled := sink.handled + [(given, r)];
    }
  }

  /** `cloneAttrs`: an array of its own, without spare capacity. */
  method CloneAttrs(src: Slice<Attr>) returns (dst: Slice<Attr>)
    requires Fits(src)
    ensures fresh(dst.mem) && Fits(dst) && dst.mem.Length == dst.len
    ensures Elements(dst) == Elements(src)
  {
    if src.len == 0 {
      dst := Empty();
      return;
    }
    dst := Copy(src);
  }

  class Handler {
    const inner: Inner
    const requestId: string
    const attrs: Slice<Attr>
    const bufferLimit: int

    ghost predicate Valid() {
      Fits(attrs)
    }

    ghost function Attrs(): seq<Attr>
      requires Valid()
      reads attrs.mem
    {
      Elements(attrs)
    }

    constructor (inner: Inner, requestId: string, attrs: Slice<Attr>, bufferLimit: int)
      requires Fits(attrs)
      ensures Valid()
      ensures this.inner == inner && this.requestId == requestId && this.attrs == attrs && this.bufferLimit == bufferLimit
    {
      this.inner, this.requestId, this.attrs, this.bufferLimit := inner, requestId, attrs, bufferLimit;
    }

    /** Writes to no array that existed before, although `append` may write in place. */
    method WithAttrs(more: seq<Attr>) returns (h: Handler)
      requires Valid()
      ensures h.Valid() && fresh(h) && fresh(h.attrs.mem) && h.Attrs() == Attrs() + more
      ensures h.requestId == DerivedId(requestId, more) && h.bufferLimit == bufferLimit
      ensures h.inner == inner.WithAttrs(more)
    {
      var id := requestId;
      var i := 0;
      while i < |more|
        invariant 0 <= i <= |more|
        invariant DerivedId(requestId, more) == DerivedId(requestId, more[i..]) && id == requestId
      {
        if more[i].key == REQUEST_ID {
          id := more[i].value;
          break;
        }
        assert more[i..][1..] == more[i + 1..];
        i := i + 1;
      }
      var clone := CloneAttrs(attrs);
      var all := Append(clone, more);
      h := new Handler(inner.WithAttrs(more), id, all, bufferLimit);
    }

    method WithGroup(name: string) returns (h: Handler)
      requires Valid()
      ensures h.Valid() && fresh(h) && fresh(h.attrs.mem) && h.Attrs() == Attrs()
      ensures h.requestId == requestId && h.bufferLimit == bufferLimit
      ensures h.inner == inner.WithGroup(name)
    {
      var clone := CloneAttrs(attrs);
      h := new Handler(inner.WithGroup(name), requestId, clone, bufferLimit);
    }

    /** A captured record adds one entry to the context's buffer, whose attributes merge those of the
        handler and those of the record; the wrapped handler gets every record. */
    method Handle(ctx: LogContext, r: Record)
      requires Valid() && (ctx.buffer != null ==> ctx.buffer.Valid())
      modifies ctx.Frame(), inner.sink
      ensures inner.sink.handled == old(inner.sink.handled) + [(inner.given, r)]
      ensures ctx.buffer != null ==> ctx.buffer.Valid()
      ensures ctx.buffer != null ==>
                && ctx.buffer.history == old(ctx.buffer.history) +
                   (if requestId != "" || ctx.requestId != "" || ctx.operation.Some?
                    then [EntryFor(r, Attrs() + r.attrs, ctx.operation)] else [])
                && (requestId != "" || ctx.requestId != "" || ctx.operation.Some? ==>
                      Tells(ctx.buffer.history[|old(ctx.buffer.history)|], r, Attrs() + r.attrs, ctx.operation))
                && ctx.buffer.tags == old(ctx.buffer.tags)
                && ctx.buffer.requestBody == old(ctx.buffer.requestBody)
                && ctx.buffer.responseBody == old(ctx.buffer.responseBody)
    {
      ghost var list := Attrs() + r.attrs;
      var id := requestId;
      if id == "" {
        id := ctx.requestId;
      }
      if (id != "" || ctx.operation.Some?) && ctx.buffer != null {
        var m := MergedAttrs(r);
        MergeIsUnique(m, LastWins(list), list);
        if ctx.operation.Some? {
          m := m[OPERATION_ID := ctx.operation.value];
        }
        var entryAttrs: Option<Tags> := None;
        if m != map[] {
          entryAttrs := Some(m);
        }
        ctx.buffer.Append(Entry(r.time, r.level, r.message, entryAttrs));
        inner.Handle(r);
        assert Attrs() + r.attrs == list;
      } else {
        inner.Handle(r);
      }
    }

    /** The two loops that fill the attribute map. */
    method MergedAttrs(r: Record) returns (m: Tags)
      requires Valid()
      ensures Merges(m, Attrs() + r.attrs)
    {
      m := map[];
      var list := attrs.mem[..attrs.len];
      for i := 0 to |list|
        invariant Merges(m, list[..i])
      {
        MergeStep(m, list[..i], list[i]);
        assert list[..i + 1] == list[..i] + [list[i]];
        if list[i].key != REQUEST_ID {
          m := m[list[i].key := list[i].value];
        }
      }
      assert list[..|list|] == list && list + r.attrs[..0] == list;
      for i := 0 to |r.attrs|
        invariant Merges(m, list + r.attrs[..i])
      {
        MergeStep(m, list + r.attrs[..i], r.attrs[i]);
        assert list + r.attrs[..i + 1] == list + r.attrs[..i] + [r.attrs[i]];
        if r.attrs[i].key != REQUEST_ID {
          m := m[r.attrs[i].key := r.attrs[i].value];
        }
      }
      assert r.attrs[..|r.attrs|] == r.attrs;
    }
  }

  // ----- trees of handlers -----

  /** One derivation from an already derived handler; number 0 is the handler one starts with. */
  datatype Derivation = WithAttrs(from: nat, more: seq<Attr>) | WithGroup(from: nat, name: string)

  ghost predicate IsTree(script: seq<Derivation>) {
    forall i :: 0 <= i < |script| ==> script[i].from <= i
  }

  /** The attributes met on the path from the first handler to handler i. */
  ghost function PathAttrs(base: seq<Attr>, script: seq<Derivation>, i: nat): seq<Attr>
    requires IsTree(script) && i <= |script|
    decreases i
  {
    if i == 0 then base
    else
      match script[i - 1]
      case WithAttrs(from, more) => PathAttrs(base, script, from) + more
      case WithGroup(from, _) => PathAttrs(base, script, from)
  }

  /** The request ID on that path: the last derivation that brings one decides, by its first. */
  ghost function PathId(id: string, script: seq<Derivation>, i: nat): string
    requires IsTree(script) && i <= |script|
    decreases i
  {
    if i == 0 then id
    else
      match script[i - 1]
      case WithAttrs(from, more) => DerivedId(PathId(id, script, from), more)
      case WithGroup(from, _) => PathId(id, script, from)
  }

  /** The wrapped handler, derived along the same path. */
  ghost function PathInner(inner: Inner, script: seq<Derivation>, i: nat): Inner
    requires IsTree(script) && i <= |script|
    decreases i
  {
    if i == 0 then inner
    else
      match script[i - 1]
      case WithAttrs(from, more) => PathInner(inner, script, from).WithAttrs(more)
      case WithGroup(from, name) => PathInner(inner, script, from).WithGroup(name)
  }

  /** Handler h is what the script makes of a first handler with these attributes. */
  ghost predicate Follows(h: Handler, first: Handler, base: seq<Attr>, script: seq<Derivation>, i: nat)
    requires IsTree(script) && i <= |script|
    reads h.attrs.mem
  {
    && h.Valid() && h.Attrs() == PathAttrs(base, script, i)
    && h.requestId == PathId(first.requestId, script, i) && h.inner == PathInner(first.inner, script, i)
  }

  method Derive(from: Handler, d: Derivation) returns (h: Handler)
    requires from.Valid()
    ensures h.Valid() && fresh(h) && fresh(h.attrs.mem)
    ensures h.Attrs() == from.Attrs() + if d.WithAttrs? then d.more else []
    ensures h.requestId == if d.WithAttrs? then DerivedId(from.requestId, d.more) else from.requestId
    ensures h.inner == if d.WithAttrs? then from.inner.WithAttrs(d.more) else from.inner.WithGroup(d.name)
  {
    match d {
      case WithAttrs(_, more) => h := from.WithAttrs(more);
      case WithGroup(_, name) => h := from.WithGroup(name);
    }
  }

  /** Any tree of derivations, in any order: every handler ends up with the attributes of its own
      path, in an array that no other handler has, wraps a handler derived along that path, and the
      first handler is as it was. */
  method DeriveAll(first: Handler, script: seq<Derivation>) returns (hs: seq<Handler>)
    requires IsTree(script) && first.Valid()
    ensures |hs| == |script| + 1 && hs[0] == first
    ensures first.attrs.mem[..] == old(first.attrs.mem[..])
    ensures forall i :: 0 <= i < |hs| ==> Follows(hs[i], first, old(first.Attrs()), script, i)
    ensures forall i, j :: 0 <= i < j < |hs| ==> hs[i].attrs.mem != hs[j].attrs.mem
  {
    ghost var base := first.Attrs();
    hs := [first];
    for n := 0 to |script|
      invariant |hs| == n + 1 && hs[0] == first
      invariant forall i :: 0 <= i < |hs| ==> Follows(hs[i], first, base, script, i)
      invariant forall i, j :: 0 <= i < j < |hs| ==> hs[i].attrs.mem != hs[j].attrs.mem
    {
      var h := Derive(hs[script[n].from], script[n]);
      assert Follows(h, first, base, script, n + 1);
      hs := hs + [h];
    }
  }
}
