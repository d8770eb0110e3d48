/** Values shared by the whole model: the source's records, and the two kinds of
    machine arithmetic (wrap-around and saturation) its durations are subject to. */
module Types {

  datatype Option<+T> = None | Some(value: T)

  datatype Result<+T, +E> = Ok(value: T) | Err(error: E)

  // ----- int64 -----

  const MIN_INT64: int := -0x8000_0000_0000_0000
  const MAX_INT64: int := 0x7FFF_FFFF_FFFF_FFFF

  type Int64 = x: int | MIN_INT64 <= x <= MAX_INT64

  /** Two's complement wrap-around of Go's int64 operators. */
  function Wrap64(x: int): Int64 {
    (x - MIN_INT64) % 0x1_0000_0000_0000_0000 + MIN_INT64
  }

  /** `time.Time.Sub` clamps a difference that does not fit in a Duration. */
  function Saturate64(x: int): Int64 {
    if x < MIN_INT64 then MIN_INT64 else if x > MAX_INT64 then MAX_INT64 else x
  }

  lemma WrapIsExactOnlyInRange(x: int)
    ensures Wrap64(x) == x <==> MIN_INT64 <= x <= MAX_INT64
  {
  }

  // ----- time -----

  /** Instants are nanoseconds on one time line; zones and encodings are not modelled. */
  type Time = int

  /** Go's zero time, 1 January of year 1, in nanoseconds relative to the Unix epoch. */
  const ZERO_TIME: Time := -62135596800 * 1000000000

  type Duration = Int64

  const MILLISECOND: int := 1000000
  const HOUR: int := 3600 * 1000 * MILLISECOND

  // ----- records -----

  type Tags = map<string, string>
  newtype byte = x: int | 0 <= x < 0x100

  type Bytes = seq<byte>

  datatype Entry = Entry(time: Time, level: string, message: string, attrs: Option<Tags>)

  const KIND_OPERATION := "operation"

  /** A promoted trace; `verb` is the HTTP method. A nil Go map is `None`. */
  datatype Trace = Trace(
    requestId: string, parentRequestId: string, errorChain: string, statusCode: Int64,
    route: string, verb: string, userAgent: string, remoteIp: string, userId: string,
    tags: Option<Tags>, entries: seq<Entry>, requestBody: Bytes, responseBody: Bytes,
    createdAt: Time, kind: string, operationId: string, operationName: string,
    originRequestId: string, status: string, startedAt: Time, duration: Duration)

  datatype TraceSummary = TraceSummary(
    requestId: string, parentRequestId: string, errorChain: string, statusCode: Int64,
    route: string, verb: string, remoteIp: string, userId: string,
    tags: Option<Tags>, createdAt: Time, kind: string, operationId: string,
    operationName: string, originRequestId: string, status: string, startedAt: Time,
    duration: Duration)

  /** One row of the table. An `Option` is a column that may hold NULL. */
  datatype Row = Row(
    requestId: string, parentRequestId: Option<string>, errorChain: string, statusCode: Int64,
    route: string, verb: string, userAgent: Option<string>, remoteIp: Option<string>,
    userId: Option<string>, entries: seq<Entry>, tags: Option<Tags>,
    requestBody: Option<Bytes>, responseBody: Option<Bytes>, kind: Option<string>,
    operationName: Option<string>, originRequestId: Option<string>, status: Option<string>,
    startedAt: Option<Time>, durationMs: Option<Int64>, createdAt: Time)

  datatype TraceFilter = TraceFilter(
    q: string, status: string, verb: string, tags: Tags,
    sort: string, dir: string, page: int, perPage: int)
}
