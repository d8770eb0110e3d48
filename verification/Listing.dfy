/** `ListTraces` and `AvailableFilters` on a table that does not change meanwhile. */
module Listing {
  import opened Types
  import opened Text
  import opened Sequences
  import opened Like
  import opened Sql
  import opened Query
  import opened Codec
  import opened Table
  import opened Ordering

  // ----- ListTraces -----

  datatype SortKey = ByCreatedAt | ByStatusCode | ByRoute | ByMethod

  function SortColumn(sort: string): SortKey {
    match sort
    case "StatusCode" => ByStatusCode
    case "Route" => ByRoute
    case "Method" => ByMethod
    case _ => ByCreatedAt
  }

  /** Strictly before, in ascending order of the key. */
  predicate Before(key: SortKey, a: Row, b: Row) {
    match key
    case ByCreatedAt => a.createdAt < b.createdAt
    case ByStatusCode => a.statusCode < b.statusCode
    case ByRoute => TextLess(a.route, b.route)
    case ByMethod => TextLess(a.verb, b.verb)
  }

  ghost predicate Sorted(key: SortKey, ascending: bool, rows: seq<Row>) {
    forall i, j :: 0 <= i < j < |rows| ==>
                     if ascending then !Before(key, rows[j], rows[i]) else !Before(key, rows[i], rows[j])
  }

  /** How the engine orders rows, ties included, is left to it. */
  type RowOrder = (SortKey, bool, seq<Row>) -> seq<Row>

  ghost predicate Orders(order: RowOrder) {
    forall key, ascending, rows ::
      && multiset(order(key, ascending, rows)) == multiset(rows)
      && Sorted(key, ascending, order(key, ascending, rows))
  }

  function Selecting(w: World, where: Option<Cond>, args: seq<Arg>): Row -> bool
    requires |args| == WhereArity(where)
  {
    (row: Row) => Selects(w, where, args, row)
  }

  ghost function Matching(w: World, f: TraceFilter): Row -> bool {
    (row: Row) => Matches(w, f, row)
  }

  /** `LIMIT count OFFSET from` */
  function Page<T>(s: seq<T>, from: int, count: int): seq<T>
    requires from >= 0 && count >= 0
  {
    if from >= |s| then []
    else if from + count >= |s| then s[from..]
    else s[from..from + count]
  }

  ghost predicate Shows(row: Row, summary: TraceSummary) {
    && row.remoteIp.Some? && row.userId.Some?
    && summary == Project(RowTrace(row.(userAgent := Some(""))))
  }

  /** Field by field, how a stored trace is shown. */
  lemma StoredTraceIsShown(t: Trace, at: Time, s: TraceSummary)
    requires Shows(EncodeRow(t, at), s)
    ensures s.requestId == t.requestId && s.parentRequestId == t.parentRequestId && s.errorChain == t.errorChain
    ensures s.statusCode == t.statusCode && s.route == t.route && s.verb == t.verb
    ensures s.remoteIp == t.remoteIp && s.userId == t.userId && s.createdAt == at
    ensures s.tags == if t.tags == Some(map[]) then None else t.tags
    ensures s.kind == t.kind && s.operationId == if t.kind == "operation" then t.requestId else ""
    ensures s.operationName == t.operationName && s.originRequestId == t.originRequestId && s.status == t.status
    ensures s.startedAt == t.startedAt
    ensures if t.duration > 0 then 0 <= t.duration - s.duration < 1000000 && s.duration % 1000000 == 0 else s.duration == 0
  {
    StoreRoundTrip(t, at);
  }

  /** Which stored traces a filter describes, said of the traces. */
  lemma StoredTraceMatchesIff(w: World, f: TraceFilter, t: Trace, at: Time)
    requires forall k :: k in f.tags ==> PlainKey(k)
    ensures Matches(w, f, EncodeRow(t, at)) <==>
            && (forall word :: IsWordOf(f.q, word) ==>
                                 || ContainsFold(t.route, word) || ContainsFold(t.errorChain, word)
                                 || ContainsFold(t.requestId, word) || ContainsFold(t.verb, word)
                                 || ContainsFold(t.userId, word) || ContainsFold(t.remoteIp, word))
            && (f.status == "4xx" ==> 400 <= t.statusCode < 500)
            && (f.status == "5xx" ==> 500 <= t.statusCode)
            && (f.status != "" && f.status != "4xx" && f.status != "5xx" && w.scanInt(f.status).Some? && w.scanInt(f.status).value > 0 ==>
                  t.statusCode == w.scanInt(f.status).value)
            && (f.verb != "" ==> t.verb == f.verb)
            && (f.tags != map[] ==> t.tags.Some? && forall k :: k in f.tags ==> k in t.tags.value && t.tags.value[k] == f.tags[k])
  {
    PlainTagsAreReadDirectly(w, f.tags, EncodeRow(t, at));
    assert f.tags != map[] ==> exists k :: k in f.tags;
  }

  /** The summary shown for a row is the projection of the trace that `Get` returns for its ID. */
  lemma ShownIsWhatGetReturns(rows: seq<Row>, row: Row, summary: TraceSummary)
    requires UniqueIds(rows) && row in rows && Shows(row, summary) && row.userAgent.Some?
    ensures var got := Table.Lookup(rows, row.requestId);
            got.Ok? && got.value.Some? && summary == Project(got.value.value)
  {
  }

  function PageSize(f: TraceFilter): int {
    if f.perPage < 1 then 25 else f.perPage
  }

  function PageStart(f: TraceFilter): int {
    ((if f.page < 1 then 1 else f.page) - 1) * PageSize(f)
  }

  lemma PageStartIsNatural(f: TraceFilter)
    ensures PageStart(f) >= 0
  {
  }

  /** Row a may stand before row b in a list that was asked for with this sort and direction. */
  ghost predicate MayPrecede(sort: string, dir: string, a: Row, b: Row) {
    match sort
    case "StatusCode" => if dir == "asc" then a.statusCode <= b.statusCode else a.statusCode >= b.statusCode
    case "Route" => if dir == "asc" then !Precedes(b.route, a.route) else !Precedes(a.route, b.route)
    case "Method" => if dir == "asc" then !Precedes(b.verb, a.verb) else !Precedes(a.verb, b.verb)
    case _ => if dir == "asc" then a.createdAt <= b.createdAt else a.createdAt >= b.createdAt
  }

  ghost predicate IsAsked(f: TraceFilter, ordered: seq<Row>, matching: seq<Row>) {
    && multiset(ordered) == multiset(matching)
    && forall i, j :: 0 <= i < j < |ordered| ==> MayPrecede(f.sort, f.dir, ordered[i], ordered[j])
  }

  lemma SortedIsAsked(f: TraceFilter, ordered: seq<Row>, matching: seq<Row>)
    requires multiset(ordered) == multiset(matching) && Sorted(SortColumn(f.sort), f.dir == "asc", ordered)
    ensures IsAsked(f, ordered, matching)
  {
    forall i, j | 0 <= i < j < |ordered|
      ensures MayPrecede(f.sort, f.dir, ordered[i], ordered[j])
    {
      var a, b := ordered[i], ordered[j];
      TextLessMeaning(a.route, b.route);
      TextLessMeaning(b.route, a.route);
      TextLessMeaning(a.verb, b.verb);
      TextLessMeaning(b.verb, a.verb);
    }
  }

  /** `shown` are the entries of `ordered` from `start` on, at most n of them. */
  ghost predicate ShowsFrom(ordered: seq<Row>, start: int, n: int, shown: seq<TraceSummary>) {
    && 0 <= start && |shown| == (if |ordered| <= start then 0 else if |ordered| - start < n then |ordered| - start else n)
    && forall i :: 0 <= i < |shown| ==> Shows(ordered[start + i], shown[i])
  }

  ghost predicate HasNull(row: Row) {
    row.remoteIp.None? || row.userId.None?
  }

  /** The page asked for, counted from 1 and 1 when it is not positive, of pages with the places asked
      for, 25 when that is not positive. It fails only on a row of the page with NULL in a column the
      scan cannot take. */
  ghost predicate IsPageOf(f: TraceFilter, ordered: seq<Row>, r: Result<seq<TraceSummary>, StoreError>) {
    var n := if f.perPage > 0 then f.perPage else 25;
    var p := if f.page > 0 then f.page else 1;
    IsPageAt(ordered, (p - 1) * n, n, r)
  }

  ghost predicate IsPageAt(ordered: seq<Row>, start: int, n: int, r: Result<seq<TraceSummary>, StoreError>) {
    if r.Ok? then ShowsFrom(ordered, start, n, r.value)
    else exists i :: 0 <= start <= i < |ordered| && i < start + n && HasNull(ordered[i])
  }

  /** The total counts exactly the rows that the filter describes, and the page is cut out of those rows
      in the requested order, each shown as a summary. So a first page with a place for each of them
      shows them all. */
  method ListTraces(w: World, f: TraceFilter, order: RowOrder, rows: seq<Row>)
    returns (r: Result<(seq<TraceSummary>, nat), StoreError>)
    requires Orders(order)
    ensures r.Ok? ==> r.value.1 == |Filter(Matching(w, f), rows)|
    ensures exists ordered: seq<Row> ::
              && IsAsked(f, ordered, Filter(Matching(w, f), rows))
              && IsPageOf(f, ordered, if r.Ok? then Ok(r.value.0) else Err(r.error))
    ensures r.Ok? && f.page <= 1 && r.value.1 <= (if f.perPage > 0 then f.perPage else 25) ==>
              forall row :: row in rows && Matches(w, f, row) ==> IsShown(row, r.value.0)
  {
    PageStartIsNatural(f);
    var where, args := BuildWhere(w, f);
    FilterSame(Selecting(w, where, args), Matching(w, f), rows);
    var selected := Filter(Selecting(w, where, args), rows);
    var total := |selected|;
    var ordered := order(SortColumn(f.sort), f.dir == "asc", selected);
    SortedIsAsked(f, ordered, selected);
    var shown := ScanPage(Page(ordered, PageStart(f), PageSize(f)));
    PageIsAsked(f, ordered, shown);
    match shown {
      case Ok(result) => r := Ok((result, total));
      case Err(e) => r := Err(e);
    }
    assert IsPageOf(f, ordered, if r.Ok? then Ok(r.value.0) else Err(r.error));
    if r.Ok? {
      FullPageShowsAll(w, f, rows, ordered, r.value.0);
    }
  }

  lemma PageIsAsked(f: TraceFilter, ordered: seq<Row>, r: Result<seq<TraceSummary>, StoreError>)
    requires PageStart(f) >= 0
    requires var page := Page(ordered, PageStart(f), PageSize(f));
             if r.Ok? then |r.value| == |page| && forall i :: 0 <= i < |page| ==> Shows(page[i], r.value[i])
             else exists i :: 0 <= i < |page| && HasNull(page[i])
    ensures IsPageOf(f, ordered, r)
  {
    PageIsSlice(ordered, PageStart(f), PageSize(f), r);
  }

  lemma PageIsSlice(ordered: seq<Row>, start: nat, n: nat, r: Result<seq<TraceSummary>, StoreError>)
    requires var page := Page(ordered, start, n);
             if r.Ok? then |r.value| == |page| && forall i :: 0 <= i < |page| ==> Shows(page[i], r.value[i])
             else exists i :: 0 <= i < |page| && HasNull(page[i])
    ensures IsPageAt(ordered, start, n, r)
  {
    var page := Page(ordered, start, n);
    assert forall i :: 0 <= i < |page| ==> page[i] == ordered[start + i];
    if r.Err? {
      var i :| 0 <= i < |page| && HasNull(page[i]);
      assert HasNull(ordered[start + i]);
    }
  }

  ghost predicate IsShown(row: Row, shown: seq<TraceSummary>) {
    exists i :: 0 <= i < |shown| && Shows(row, shown[i])
  }

  lemma FullPageShowsAll(w: World, f: TraceFilter, rows: seq<Row>, ordered: seq<Row>, shown: seq<TraceSummary>)
    requires multiset(ordered) == multiset(Filter(Matching(w, f), rows)) && IsPageOf(f, ordered, Ok(shown))
    ensures f.page <= 1 && |Filter(Matching(w, f), rows)| <= (if f.perPage > 0 then f.perPage else 25) ==>
              forall row :: row in rows && Matches(w, f, row) ==> IsShown(row, shown)
  {
    assert |multiset(ordered)| == |multiset(Filter(Matching(w, f), rows))|;
    if f.page <= 1 && |ordered| <= (if f.perPage > 0 then f.perPage else 25) {
      FirstPageShowsAll(f, ordered, shown);
      forall row | row in rows && Matches(w, f, row)
        ensures IsShown(row, shown)
      {
        FilterMember(Matching(w, f), rows, row);
        assert row in multiset(ordered);
      }
    }
  }

  lemma FirstPageShowsAll(f: TraceFilter, ordered: seq<Row>, shown: seq<TraceSummary>)
    requires IsPageOf(f, ordered, Ok(shown)) && f.page <= 1 && |ordered| <= (if f.perPage > 0 then f.perPage else 25)
    ensures forall row :: row in ordered ==> IsShown(row, shown)
  {
    AllAreShown(ordered, if f.perPage > 0 then f.perPage else 25, shown);
  }

  lemma AllAreShown(ordered: seq<Row>, n: int, shown: seq<TraceSummary>)
    requires ShowsFrom(ordered, 0, n, shown) && |ordered| <= n
    ensures forall row :: row in ordered ==> IsShown(row, shown)
  {
    forall i | 0 <= i < |ordered|
      ensures IsShown(ordered[i], shown)
    {
      assert Shows(ordered[0 + i], shown[i]);
    }
  }

  method ScanPage(page: seq<Row>) returns (r: Result<seq<TraceSummary>, StoreError>)
    ensures r.Ok? ==> |r.value| == |page| && forall i :: 0 <= i < |page| ==> Shows(page[i], r.value[i])
    ensures r.Err? ==> exists i :: 0 <= i < |page| && HasNull(page[i])
  {
    var result := [];
    for i := 0 to |page|
      invariant |result| == i
      invariant forall j :: 0 <= j < i ==> Shows(page[j], result[j])
    {
      var summary := ScanSummary(page[i]);
      if summary.Err? {
        return Err(summary.error);
      }
      result := result + [summary.value];
    }
    return Ok(result);
  }

  // ----- AvailableFilters -----

  datatype FilterOptions = FilterOptions(
    statusCodes: seq<int>, methods: seq<string>, tagKeys: seq<string>, remoteIps: seq<string>,
    routes: seq<string>, userIds: seq<string>, tags: map<string, seq<string>>)

  ghost predicate HasTag(row: Row, k: string, v: string) {
    row.tags.Some? && k in row.tags.value && row.tags.value[k] == v
  }

  predicate OffersTag(tags: map<string, seq<string>>, k: string, v: string) {
    k in tags && v in tags[k]
  }

  /** The options offered: each list holds exactly the values that occur in the matching rows, where
      a dimension's own filter does not count; NULL and empty text are left out where the source
      leaves them out. */
  ghost predicate OffersExactly(w: World, f: TraceFilter, rows: seq<Row>, o: FilterOptions) {
    && (forall c :: c in o.statusCodes <==> exists row :: row in rows && MatchesExcept(w, f, "status", row) && row.statusCode == c)
    && (forall m :: m in o.methods <==> exists row :: row in rows && MatchesExcept(w, f, "method", row) && row.verb == m)
    && (forall v :: v in o.remoteIps <==> v != "" && exists row :: row in rows && Matches(w, f, row) && row.remoteIp == Some(v))
    && (forall v :: v in o.routes <==> v != "" && exists row :: row in rows && Matches(w, f, row) && row.route == v)
    && (forall v :: v in o.userIds <==> v != "" && exists row :: row in rows && Matches(w, f, row) && row.userId == Some(v))
    && (forall k :: k in o.tagKeys <==> k in o.tags)
    && (forall k :: k in o.tags ==> o.tags[k] != [])
    && (forall k, v :: OffersTag(o.tags, k, v) <==>
                         exists row :: row in rows && MatchesExcept(w, f, "tags", row) && HasTag(row, k, v))
  }

  /** Numbers increase, and texts come in the order of their first difference. */
  ghost predicate ListsAreIncreasing(o: FilterOptions) {
    && (forall i, j :: 0 <= i < j < |o.statusCodes| ==> o.statusCodes[i] < o.statusCodes[j])
    && InTextOrder(o.methods) && InTextOrder(o.tagKeys) && InTextOrder(o.remoteIps)
    && InTextOrder(o.routes) && InTextOrder(o.userIds)
    && forall k :: k in o.tags ==> InTextOrder(o.tags[k])
  }

  ghost predicate InTextOrder(s: seq<string>) {
    forall i, j :: 0 <= i < j < |s| ==> Precedes(s[i], s[j])
  }

  lemma IncreasingTexts(s: seq<string>)
    requires Increasing(ByText(), s)
    ensures InTextOrder(s)
  {
    forall i, j | 0 <= i < j < |s|
      ensures Precedes(s[i], s[j])
    {
      TextLessMeaning(s[i], s[j]);
    }
  }

  /** `SELECT DISTINCT col ... ORDER BY col`, without the NULL and, on request, without "". */
  method DistinctTexts(rows: seq<Row>, col: Column, keepEmpty: bool) returns (values: seq<string>)
    ensures forall v :: v in values <==> (keepEmpty || v != "") && exists row :: row in rows && ColumnText(row, col) == Some(v)
    ensures Increasing(ByText(), values)
  {
    var texts := [];
    for i := 0 to |rows|
      invariant forall v :: v in texts <==> (keepEmpty || v != "") && exists row :: row in rows[..i] && ColumnText(row, col) == Some(v)
    {
      assert rows[..i + 1] == rows[..i] + [rows[i]];
      var v := ColumnText(rows[i], col);
      if v.Some? && (keepEmpty || v.value != "") {
        texts := texts + [v.value];
      }
    }
    assert rows[..|rows|] == rows;
    values := DistinctSorted(ByText(), texts);
    forall v {
      DistinctSortedMember(ByText(), texts, v);
    }
    TextIsOrdered();
    DistinctSortedIncreasing(ByText(), texts);
  }

  method DistinctCodes(rows: seq<Row>) returns (codes: seq<int>)
    ensures forall c :: c in codes <==> exists row :: row in rows && row.statusCode == c
    ensures Increasing(ByNumber(), codes)
  {
    var all: seq<int> := [];
    for i := 0 to |rows|
      invariant forall c :: c in all <==> exists row :: row in rows[..i] && row.statusCode == c
    {
      assert rows[..i + 1] == rows[..i] + [rows[i]];
      all := all + [rows[i].statusCode];
    }
    assert rows[..|rows|] == rows;
    codes := DistinctSorted(ByNumber(), all);
    forall c {
      DistinctSortedMember(ByNumber(), all, c);
    }
    DistinctSortedIncreasing(ByNumber(), all);
  }

  /** Collects a set into a slice, in whatever order, and sorts it. */
  method SortedElements(s: set<string>) returns (sorted: seq<string>)
    ensures forall v :: v in sorted <==> v in s
    ensures Increasing(ByText(), sorted)
  {
    var rest, slice := s, [];
    while rest != {}
      invariant rest <= s && forall v :: v in slice <==> v in s - rest
    {
      var v :| v in rest;
      slice := slice + [v];
      rest := rest - {v};
    }
    sorted := DistinctSorted(ByText(), slice);
    forall v {
      DistinctSortedMember(ByText(), slice, v);
    }
    TextIsOrdered();
    DistinctSortedIncreasing(ByText(), slice);
  }

  predicate Seen(seen: map<string, set<string>>, k: string, v: string) {
    k in seen && v in seen[k]
  }

  ghost predicate Collected(seen: map<string, set<string>>, rows: seq<Row>) {
    forall k, v :: Seen(seen, k, v) <==> exists row :: row in rows && HasTag(row, k, v)
  }

  /** Adds the tags of one row to the values seen per key. */
  method CollectRow(seen: map<string, set<string>>, row: Row) returns (r: map<string, set<string>>)
    requires forall k :: k in seen ==> seen[k] != {}
    ensures forall k, v :: Seen(r, k, v) <==> Seen(seen, k, v) || HasTag(row, k, v)
    ensures forall k :: k in r ==> r[k] != {}
  {
    r := seen;
    if row.tags.None? {
      return;
    }
    var m := row.tags.value;
    var rest := m.Keys;
    while rest != {}
      invariant rest <= m.Keys
      invariant forall k, v :: Seen(r, k, v) <==> Seen(seen, k, v) || (HasTag(row, k, v) && k !in rest)
      invariant forall k :: k in r ==> r[k] != {}
    {
      var k :| k in rest;
      ghost var was := r;
      if k !in r {
        r := r[k := {}];
      }
      r := r[k := r[k] + {m[k]}];
      assert m[k] in r[k];
      rest := rest - {k};
      assert forall j, v :: Seen(r, j, v) <==> Seen(was, j, v) || (j == k && v == m[k]);
    }
  }

  method CollectTags(rows: seq<Row>) returns (keys: seq<string>, tags: map<string, seq<string>>)
    ensures forall k :: k in keys <==> k in tags
    ensures forall k :: k in tags ==> tags[k] != []
    ensures Increasing(ByText(), keys) && forall k :: k in tags ==> Increasing(ByText(), tags[k])
    ensures forall k, v :: OffersTag(tags, k, v) <==> exists row :: row in rows && HasTag(row, k, v)
  {
    var seen: map<string, set<string>> := map[];
    for i := 0 to |rows|
      invariant Collected(seen, rows[..i])
      invariant forall k :: k in seen ==> seen[k] != {}
    {
      assert rows[..i + 1] == rows[..i] + [rows[i]];
      seen := CollectRow(seen, rows[i]);
    }
    assert rows[..|rows|] == rows;
    keys := SortedElements(seen.Keys);
    tags := map[];
    var rest := seen.Keys;
    while rest != {}
      invariant rest <= seen.Keys && tags.Keys == seen.Keys - rest
      invariant forall k :: k in tags ==> Increasing(ByText(), tags[k]) && tags[k] != []
      invariant forall k, v :: OffersTag(tags, k, v) <==> Seen(seen, k, v) && k !in rest
    {
      var k :| k in rest;
      var values := SortedElements(seen[k]);
      assert exists v :: v in seen[k];
      tags := tags[k := values];
      rest := rest - {k};
    }
  }

  method CodeOptions(w: World, f: TraceFilter, rows: seq<Row>) returns (codes: seq<int>)
    ensures forall c :: c in codes <==> exists row :: row in rows && MatchesExcept(w, f, "status", row) && row.statusCode == c
    ensures Increasing(ByNumber(), codes)
  {
    var where, args := BuildWhereExcluding(w, f, "status");
    FilterMembers(Selecting(w, where, args), rows);
    codes := DistinctCodes(Filter(Selecting(w, where, args), rows));
  }

  method MethodOptions(w: World, f: TraceFilter, rows: seq<Row>) returns (methods: seq<string>)
    ensures forall m :: m in methods <==> exists row :: row in rows && MatchesExcept(w, f, "method", row) && row.verb == m
    ensures Increasing(ByText(), methods)
  {
    var where, args := BuildWhereExcluding(w, f, "method");
    FilterMembers(Selecting(w, where, args), rows);
    methods := DistinctTexts(Filter(Selecting(w, where, args), rows), Verb, true);
  }

  method ColumnOptions(w: World, f: TraceFilter, rows: seq<Row>, col: Column) returns (values: seq<string>)
    ensures forall v :: v in values <==> v != "" && exists row :: row in rows && Matches(w, f, row) && ColumnText(row, col) == Some(v)
    ensures Increasing(ByText(), values)
  {
    var where, args := BuildWhere(w, f);
    FilterMembers(Selecting(w, where, args), rows);
    values := DistinctTexts(Filter(Selecting(w, where, args), rows), col, false);
  }

  method TagOptions(w: World, f: TraceFilter, rows: seq<Row>) returns (keys: seq<string>, tags: map<string, seq<string>>)
    ensures forall k :: k in keys <==> k in tags
    ensures forall k :: k in tags ==> tags[k] != []
    ensures Increasing(ByText(), keys) && forall k :: k in tags ==> Increasing(ByText(), tags[k])
    ensures forall k, v :: OffersTag(tags, k, v) <==> exists row :: row in rows && MatchesExcept(w, f, "tags", row) && HasTag(row, k, v)
  {
    var where, args := BuildWhereExcluding(w, f, "tags");
    FilterMembers(Selecting(w, where, args), rows);
    keys, tags := CollectTags(Filter(Selecting(w, where, args), rows));
  }

  method AvailableFilters(w: World, f: TraceFilter, rows: seq<Row>) returns (o: FilterOptions)
    ensures OffersExactly(w, f, rows, o)
    ensures ListsAreIncreasing(o)
  {
    var codes := CodeOptions(w, f, rows);
    var methods := MethodOptions(w, f, rows);
    var ips := ColumnOptions(w, f, rows, RemoteIp);
    var routes := ColumnOptions(w, f, rows, Route);
    var users := ColumnOptions(w, f, rows, UserId);
    var keys, tags := TagOptions(w, f, rows);
    o := FilterOptions(codes, methods, keys, ips, routes, users, tags);
    IncreasingTexts(methods);
    IncreasingTexts(keys);
    IncreasingTexts(ips);
    IncreasingTexts(routes);
    IncreasingTexts(users);
    forall k | k in tags {
      IncreasingTexts(tags[k]);
    }
    assert forall i, j :: 0 <= i < j < |codes| ==> ByNumber()(codes[i], codes[j]);
  }

  // ----- the options and the list agree -----

  lemma SomeMatchIff(w: World, f: TraceFilter, rows: seq<Row>)
    ensures |Filter(Matching(w, f), rows)| > 0 <==> exists row :: row in rows && Matches(w, f, row)
  {
  }

  /** A positive status code is offered exactly when listing with that code finds something. */
  lemma StatusOptionFindsRows(w: World, f: TraceFilter, rows: seq<Row>, o: FilterOptions, code: int)
    requires OffersExactly(w, f, rows, o) && code > 0
    requires w.scanInt(Decimal(code)) == Some(code)
    ensures code in o.statusCodes <==> |Filter(Matching(w, f.(status := Decimal(code))), rows)| > 0
  {
    var f' := f.(status := Decimal(code));
    SomeMatchIff(w, f', rows);
    DecimalIsNoClass(code);
    forall row: Row
      ensures Matches(w, f', row) <==> MatchesExcept(w, f, "status", row) && row.statusCode == code
    {
    }
  }

  /** A code that is not positive may be offered, but choosing it does not restrict the status. */
  lemma NonPositiveStatusDoesNotFilter(w: World, f: TraceFilter, row: Row, code: int)
    requires code <= 0 && w.scanInt(Decimal(code)) == Some(code)
    ensures Matches(w, f.(status := Decimal(code)), row) <==> MatchesExcept(w, f, "status", row)
  {
    DecimalIsNoClass(code);
  }

  /** A status option selects the rows of its code, and no others, exactly when the code is positive or
      all rows it could list have that code anyway. */
  lemma StatusOptionFiltersIff(w: World, f: TraceFilter, rows: seq<Row>, code: int)
    requires w.scanInt(Decimal(code)) == Some(code)
    ensures var f' := f.(status := Decimal(code));
            (forall row :: row in rows ==>
                             (Matches(w, f', row) <==> MatchesExcept(w, f, "status", row) && row.statusCode == code)) <==>
            code > 0 || forall row :: row in rows && MatchesExcept(w, f, "status", row) ==> row.statusCode == code
  {
    DecimalIsNoClass(code);
    var f' := f.(status := Decimal(code));
    forall row: Row
      ensures Matches(w, f', row) <==> MatchesExcept(w, f, "status", row) && (code > 0 ==> row.statusCode == code)
    {
    }
  }

  /** Status 0, which every operation is stored with: the option is offered, and choosing it also lists
      a row of status 500. */
  lemma StatusZeroListsForeignRow(w: World, zero: Row, failed: Row, o: FilterOptions)
    requires w.scanInt("0") == Some(0) && zero.statusCode == 0 && failed.statusCode == 500
    requires OffersExactly(w, TraceFilter("", "", "", map[], "", "", 1, 25), [zero, failed], o)
    ensures 0 in o.statusCodes && 500 in o.statusCodes
    ensures Filter(Matching(w, TraceFilter("", "0", "", map[], "", "", 1, 25)), [zero, failed]) == [zero, failed]
  {
    var all := TraceFilter("", "", "", map[], "", "", 1, 25);
    var chosen := all.(status := "0");
    assert Decimal(0) == "0";
    forall row: Row
      ensures Matches(w, chosen, row) && MatchesExcept(w, all, "status", row)
    {
      DecimalIsNoClass(0);
    }
    assert zero in [zero, failed] && failed in [zero, failed];
    FilterAll(Matching(w, chosen), [zero, failed]);
  }

  lemma DecimalIsNoClass(code: int)
    ensures Decimal(code) != "" && Decimal(code) != "4xx" && Decimal(code) != "5xx"
  {
    DecimalCharacters(code);
    assert "4xx"[1] == 'x' && "5xx"[1] == 'x';
  }

  lemma MethodOptionFindsRows(w: World, f: TraceFilter, rows: seq<Row>, o: FilterOptions, verb: string)
    requires OffersExactly(w, f, rows, o) && verb != ""
    ensures verb in o.methods <==> |Filter(Matching(w, f.(verb := verb)), rows)| > 0
  {
    var f' := f.(verb := verb);
    SomeMatchIff(w, f', rows);
    forall row: Row
      ensures Matches(w, f', row) <==> MatchesExcept(w, f, "method", row) && row.verb == verb
    {
    }
  }

  /** A tag value is offered for a plain key exactly when listing with that one tag finds something. */
  lemma TagOptionFindsRows(w: World, f: TraceFilter, rows: seq<Row>, o: FilterOptions, k: string, v: string)
    requires OffersExactly(w, f, rows, o) && PlainKey(k)
    ensures OffersTag(o.tags, k, v) <==> |Filter(Matching(w, f.(tags := map[k := v])), rows)| > 0
  {
    var f' := f.(tags := map[k := v]);
    SomeMatchIff(w, f', rows);
    forall row: Row
      ensures Matches(w, f', row) <==> MatchesExcept(w, f, "tags", row) && HasTag(row, k, v)
    {
      PlainTagsAreReadDirectly(w, map[k := v], row);
      assert map[k := v] != map[] by { assert k in map[k := v]; }
    }
  }
}
