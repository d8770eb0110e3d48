/** Body capture (bodycapture.go): the response writer and the request-body replay. */
module Capture {
  import opened Types
  import opened LogBuffer
  import opened Slices

  const DEFAULT_MAX_BODY_SIZE: int := 64 * 1024

  /** `WithMaxBodySize` options in order; those that are not positive are ignored. */
  function ConfiguredSize(options: seq<Int64>): (n: Int64)
    ensures n > 0
  {
    if options == [] then DEFAULT_MAX_BODY_SIZE
    else if options[|options| - 1] > 0 then options[|options| - 1]
    else ConfiguredSize(options[..|options| - 1])
  }

  /** The last positive option counts, and 65536 when there is none. */
  lemma {:induction false} ConfiguredSizeIsLast(options: seq<Int64>)
    ensures (forall i :: 0 <= i < |options| ==> options[i] <= 0) ==> ConfiguredSize(options) == 65536
    ensures forall i :: 0 <= i < |options| && options[i] > 0 && (forall j :: i < j < |options| ==> options[j] <= 0) ==>
                          ConfiguredSize(options) == options[i]
  {
    if options != [] {
      ConfiguredSizeIsLast(options[..|options| - 1]);
    }
  }

  function Prefix(body: Bytes, n: int): Bytes {
    if n <= 0 then [] else if n < |body| then body[..n] else body
  }

  // ----- redactors -----

  /** A deterministic redactor works on memory: `result` is what it returns for the bytes it is given,
      and `scribble` what the whole backing array holds afterwards when it was given the first n bytes
      of it. It may write into its argument, and behind it by appending. */
  datatype Redactor = Redactor(result: Bytes -> Bytes, scribble: (Bytes, nat) -> Bytes)

  ghost predicate KeepsLength(redactor: Option<Redactor>) {
    redactor.Some? ==> forall b, n :: |redactor.value.scribble(b, n)| == |b|
  }

  function Redact(redactor: Option<Redactor>, body: Bytes): Bytes {
    match redactor
    case None => body
    case Some(f) => f.result(body)
  }

  method RunRedactor(f: Redactor, mem: array<byte>, n: nat) returns (out: Bytes)
    requires n <= mem.Length && |f.scribble(mem[..], n)| == mem.Length
    modifies mem
    ensures out == f.result(old(mem[..n])) && mem[..] == f.scribble(old(mem[..]), n)
  {
    out := f.result(mem[..n]);
    var after := f.scribble(mem[..], n);
    for i := 0 to mem.Length
      invariant mem[..i] == after[..i]
    {
      mem[i] := after[i];
    }
  }

  // ----- the response -----

  /** The writer underneath. */
  class InnerWriter {
    var written: Bytes
    var codes: seq<Int64>

    constructor ()
      ensures written == [] && codes == []
    {
      written, codes := [], [];
    }

    method WriteHeader(code: Int64)
      modifies this`codes
      ensures codes == old(codes) + [code]
    {
      codes := codes + [code];
    }

    method Write(b: Bytes)
      modifies this`written
      ensures written == old(written) + b
    {
      written := written + b;
    }
  }

  class CaptureResponseWriter {
    const inner: InnerWriter
    const maxSize: Int64
    /** The local accumulator; its array is grown by appending. */
    var capBuf: Slice<byte>
    var captured: int
    const promoBuf: Buffer
    const redactor: Option<Redactor>
    /** All bytes passed to Write, and whether there was a call. */
    ghost var received: Bytes
    ghost var used: bool

    /** However the bytes were cut into calls, the accumulator holds the first maxSize of them, and
        the buffer holds what the redactor makes of them from the first call on. */
    ghost predicate Valid()
      reads this, capBuf.mem, promoBuf`responseBody
    {
      && maxSize > 0 && KeepsLength(redactor)
      && Fits(capBuf) && Elements(capBuf) == Prefix(received, maxSize)
      && captured == capBuf.len
      && (used ==> promoBuf.responseBody == Redact(redactor, Prefix(received, maxSize)))
      && (!used ==> received == [])
    }

    constructor (w: InnerWriter, max: Int64, buf: Buffer, redaction: Option<Redactor>)
      requires max > 0 && KeepsLength(redaction)
      ensures Valid() && !used && received == [] && fresh(capBuf.mem)
      ensures inner == w && maxSize == max && promoBuf == buf && redactor == redaction
    {
      inner, maxSize, promoBuf, redactor := w, max, buf, redaction;
      var mem := new byte[0];
      capBuf, captured := Slice(mem, 0), 0;
      received, used := [], false;
    }

    /** The redactor gets a copy of the accumulator, so what it does to it stays without effect. */
    method Write(b: Bytes)
      requires Valid()
      modifies this`capBuf, this`captured, this`received, this`used, capBuf.mem, promoBuf`responseBody, inner`written
      ensures Valid() && used && received == old(received) + b
      ensures capBuf.mem == old(capBuf.mem) || fresh(capBuf.mem)
      ensures inner.written == old(inner.written) + b
    {
      ghost var all := received + b;
      var remaining := maxSize as int - captured;
      if remaining > 0 {
        var toCapture := b;
        if |toCapture| > remaining {
          toCapture := toCapture[..remaining];
        }
        capBuf := Append(capBuf, toCapture);
        captured := captured + |toCapture|;
        assert Elements(capBuf) == Prefix(all, maxSize);
        var out := RedactedCopy();
        promoBuf.SetResponseBody(out);
      }
      received, used := all, true;
      inner.Write(b);
    }

    method WriteHeader(code: Int64)
      modifies inner`codes
      ensures inner.codes == old(inner.codes) + [code]
    {
      inner.WriteHeader(code);
    }

    method RedactedCopy() returns (out: Bytes)
      requires Fits(capBuf) && KeepsLength(redactor)
      ensures out == Redact(redactor, Elements(capBuf))
    {
      out := capBuf.mem[..capBuf.len];
      if redactor.Some? {
        var none := Empty();
        var copy := Append(none, out);
        assert Elements(copy) == [] + out == out;
        out := RunRedactor(redactor.value, copy.mem, copy.len);
      }
    }

    /** One or more calls: the stored body and the forwarded bytes depend on the concatenation only,
        for every deterministic redactor, whatever it does to the memory it is given. */
    method WriteAll(chunks: seq<Bytes>)
      requires Valid() && !used && |chunks| > 0
      modifies this`capBuf, this`captured, this`received, this`used, capBuf.mem, promoBuf`responseBody, inner`written
      ensures promoBuf.responseBody == Redact(redactor, Prefix(Concat(chunks), maxSize))
      ensures captured == |Prefix(Concat(chunks), maxSize)|
      ensures inner.written == old(inner.written) + Concat(chunks)
    {
      for i := 0 to |chunks|
        invariant Valid() && (used <==> i > 0) && received == Concat(chunks[..i])
        invariant capBuf.mem == old(capBuf.mem) || fresh(capBuf.mem)
        invariant inner.written == old(inner.written) + Concat(chunks[..i])
      {
        ConcatSnoc(chunks[..i], chunks[i]);
        assert chunks[..i + 1] == chunks[..i] + [chunks[i]];
        Write(chunks[i]);
      }
      assert chunks[..|chunks|] == chunks;
    }
  }

  /** The writer that inner middleware gets: a capturing one, or the one underneath. */
  datatype Writer = Plain(base: InnerWriter) | Capturing(crw: CaptureResponseWriter)
  {
    function Base(): InnerWriter {
      if Plain? then base else crw.inner
    }

    /** The accumulator, and the buffer that gets the body. */
    ghost function Owned(): set<object>
      reads if Capturing? then {crw} else {}
    {
      if Capturing? then {crw, crw.capBuf.mem} else {}
    }

    function Buffers(): set<Buffer> {
      if Capturing? then {crw.promoBuf} else {}
    }

    ghost predicate Valid()
      reads Owned(), Buffers()`responseBody
    {
      Capturing? ==> crw.Valid()
    }

    method WriteHeader(code: Int64)
      modifies Base()`codes
      ensures Base().codes == old(Base().codes) + [code]
    {
      match this
      case Plain(w) => w.WriteHeader(code);
      case Capturing(w) => w.WriteHeader(code);
    }

    method Write(b: Bytes)
      requires Valid()
      modifies Owned(), Buffers()`responseBody, Base()`written
      ensures Valid() && Base().written == old(Base().written) + b
      ensures Capturing? ==> crw.used && crw.received == old(crw.received) + b
      ensures Capturing? ==> crw.capBuf.mem == old(crw.capBuf.mem) || fresh(crw.capBuf.mem)
    {
      match this
      case Plain(w) => w.Write(b);
      case Capturing(w) => w.Write(b);
    }
  }

  function Concat(chunks: seq<Bytes>): Bytes {
    if chunks == [] then [] else chunks[0] + Concat(chunks[1..])
  }

  lemma {:induction false} ConcatSnoc(chunks: seq<Bytes>, b: Bytes)
    ensures Concat(chunks + [b]) == Concat(chunks) + b
  {
    if chunks == [] {
      assert (chunks + [b])[1..] == [];
      assert Concat(chunks + [b]) == b + [];
    } else {
      assert (chunks + [b])[1..] == chunks[1..] + [b];
      ConcatSnoc(chunks[1..], b);
    }
  }

  // ----- the request -----

  /** A body still to be read: its bytes, and whether reading past them fails instead of ending. */
  datatype Body = Body(data: Bytes, broken: bool)

  /** How many bytes are read ahead: one more than the limit, in int64. */
  function ReadAhead(maxSize: Int64): int {
    Wrap64(maxSize as int + 1)
  }

  /** The bytes read ahead of the handler. */
  function Peek(body: Body, maxSize: Int64): (front: Bytes)
    ensures front <= body.data
  {
    Prefix(body.data, ReadAhead(maxSize))
  }

  /** A body is captured when the read-ahead got something and met no error. */
  predicate Captures(body: Body, maxSize: Int64) {
    Peek(body, maxSize) != [] && !(body.broken && |body.data| < ReadAhead(maxSize))
  }

  /** `io.ReadAll(io.LimitReader(body, n))` */
  method ReadUpTo(body: Body, n: int) returns (read: array<byte>, failed: bool, rest: Body)
    ensures fresh(read) && read[..] == Prefix(body.data, n)
    ensures failed <==> body.broken && |body.data| < n
    ensures rest == Body(body.data[|Prefix(body.data, n)|..], body.broken)
  {
    var got := Prefix(body.data, n);
    read := new byte[|got|](i requires 0 <= i < |got| => got[i]);
    failed := body.broken && |body.data| < n;
    rest := Body(body.data[|got|..], body.broken);
  }

  /** Captures a prefix of the request body and puts the bytes back in front of the rest. The handler
      reads the original body exactly when the redactor left the shared memory as it was. */
  method CaptureRequest(buf: Buffer, body: Option<Body>, maxSize: Int64, redactor: Option<Redactor>)
    returns (downstream: Option<Body>)
    requires maxSize > 0 && KeepsLength(redactor)
    modifies buf`requestBody
    ensures body.None? ==> downstream.None?
    ensures buf.requestBody ==
            if body.Some? && Captures(body.value, maxSize)
            then Redact(redactor, Prefix(body.value.data, maxSize))
            else old(buf.requestBody)
    ensures body.Some? ==> downstream.Some? && downstream.value.broken == body.value.broken
    ensures body.Some? ==>
              var peek := Peek(body.value, maxSize);
              downstream.value.data ==
              (if redactor.Some? && Captures(body.value, maxSize)
               then redactor.value.scribble(peek, |Prefix(body.value.data, maxSize)|) else peek) + body.value.data[|peek|..]
    ensures body.Some? ==>
              (downstream == body <==>
               !(redactor.Some? && Captures(body.value, maxSize))
               || redactor.value.scribble(Peek(body.value, maxSize), |Prefix(body.value.data, maxSize)|) == Peek(body.value, maxSize))
  {
    if body.None? {
      return None;
    }
    PeekCoversThePrefix(body.value, maxSize);
    var read, failed, rest := ReadUpTo(body.value, ReadAhead(maxSize));
    if !failed && read.Length > 0 {
      var n := read.Length;
      if n > maxSize {
        n := maxSize;
      }
      assert read[..n] == Prefix(body.value.data, maxSize);
      var captured := read[..n];
      if redactor.Some? {
        captured := RunRedactor(redactor.value, read, n);
      }
      buf.SetRequestBody(captured);
    }
    SplitIsExact(body.value.data, Peek(body.value, maxSize), read[..]);
    return Some(Body(read[..] + rest.data, rest.broken));
  }

  /** What is read ahead reaches past the limit, unless the limit is the largest int64: then the
      read-ahead wraps to nothing and no body is ever captured. */
  lemma PeekCoversThePrefix(body: Body, maxSize: Int64)
    requires maxSize > 0
    ensures Peek(body, maxSize) <= body.data
    ensures maxSize < MAX_INT64 ==> Prefix(Peek(body, maxSize), maxSize) == Prefix(body.data, maxSize)
    ensures maxSize < MAX_INT64 ==> (Captures(body, maxSize) <==> body.data != [] && !(body.broken && |body.data| <= maxSize))
    ensures maxSize == MAX_INT64 ==> !Captures(body, maxSize)
  {
  }

  lemma SplitIsExact(data: Bytes, front: Bytes, other: Bytes)
    requires front <= data && |other| == |front|
    ensures other + data[|front|..] == data <==> other == front
  {
  }

  function Blanks(b: Bytes, n: nat): Bytes {
    seq(|b|, i requires 0 <= i < |b| => if i < n then 0 else b[i])
  }

  /** A redactor that blanks its argument in place and returns it, at work on the one-byte body [7]: the
      zero that is stored is also what the handler reads. */
  method BlankingRedactorReachesTheHandler(buf: Buffer) returns (downstream: Option<Body>)
    modifies buf`requestBody
    ensures downstream == Some(Body([0], false)) && buf.requestBody == [0]
  {
    var blank := Redactor((b: Bytes) => Blanks(b, |b|), (b: Bytes, n: nat) => Blanks(b, n));
    var body := Body([7], false);
    PeekCoversThePrefix(body, 10);
    assert Peek(body, 10) == [7];
    assert Prefix([7], 10) == [7] && Blanks([7], 1) == [0];
    assert [0] + body.data[1..] == [0];
    downstream := CaptureRequest(buf, Some(body), 10, Some(blank));
  }
}
