/** `Aggregate` of sqlite/store.go, on a table that does not change between its queries. */
module Aggregate {
  import opened Types
  import opened Sequences
  import opened Text
  import opened Sql
  import opened Ordering
  import opened Cleanup

  datatype AggregateFilter = AggregateFilter(groupBy: string, window: Duration, minCount: int)
  datatype AggregateResult = AggregateResult(key: string, count: int, topErrors: seq<string>)
  datatype Group = Group(key: string, count: int)

  function GroupColumn(groupBy: string): Option<Column> {
    match groupBy
    case "route" => Some(Route)
    case "status_code" => Some(StatusCode)
    case "method" => Some(Verb)
    case "error_chain" => Some(ErrorChain)
    case _ => None
  }

  /** The group of a row. None of the columns can be NULL. */
  function KeyOf(col: Column, row: Row): string {
    match ColumnText(row, col)
    case None => ""
    case Some(v) => v
  }

  function HasKey(col: Column, key: string): Row -> bool {
    (row: Row) => KeyOf(col, row) == key
  }

  function CountOf(col: Column, key: string, rows: seq<Row>): nat {
    |Filter(HasKey(col, key), rows)|
  }

  function Keys(col: Column, rows: seq<Row>): seq<string> {
    seq(|rows|, i requires 0 <= i < |rows| => KeyOf(col, rows[i]))
  }

  function InWindow(f: AggregateFilter, now: Time): Row -> bool {
    (row: Row) => f.window > 0 ==> row.createdAt >= now + Negated(f.window)
  }

  // ----- what a result stands for, without columns -----

  ghost predicate IsRecent(f: AggregateFilter, now: Time, row: Row) {
    f.window > 0 ==> now - row.createdAt <= f.window
  }

  ghost predicate BelongsTo(groupBy: string, key: string, row: Row) {
    || (groupBy == "route" && row.route == key)
    || (groupBy == "status_code" && Decimal(row.statusCode) == key)
    || (groupBy == "method" && row.verb == key)
    || (groupBy == "error_chain" && row.errorChain == key)
  }

  ghost function Recent(f: AggregateFilter, now: Time): Row -> bool {
    (row: Row) => IsRecent(f, now, row)
  }

  ghost function InGroup(f: AggregateFilter, now: Time, key: string): Row -> bool {
    (row: Row) => IsRecent(f, now, row) && BelongsTo(f.groupBy, key, row)
  }

  lemma WindowIsRecent(f: AggregateFilter, now: Time, rows: seq<Row>)
    ensures Filter(InWindow(f, now), rows) == Filter(Recent(f, now), rows)
  {
    FilterSame(InWindow(f, now), Recent(f, now), rows);
  }

  /** The rows counted for a key are those of the group. */
  lemma KeyedIsGrouped(f: AggregateFilter, now: Time, key: string, rows: seq<Row>)
    requires GroupColumn(f.groupBy).Some?
    ensures Filter(HasKey(GroupColumn(f.groupBy).value, key), Filter(InWindow(f, now), rows)) == Filter(InGroup(f, now, key), rows)
  {
    forall row: Row
      ensures HasKey(GroupColumn(f.groupBy).value, key)(row) <==> BelongsTo(f.groupBy, key, row)
    {
    }
    FilterTwice(InWindow(f, now), HasKey(GroupColumn(f.groupBy).value, key), InGroup(f, now, key), rows);
  }

  // ----- the queries -----

  function GroupsOf(col: Column, keys: seq<string>, rows: seq<Row>): seq<Group> {
    seq(|keys|, i requires 0 <= i < |keys| => Group(keys[i], CountOf(col, keys[i], rows)))
  }

  /** `SELECT col, COUNT(*) ... GROUP BY col` */
  function GroupBy(col: Column, rows: seq<Row>): seq<Group> {
    GroupsOf(col, DistinctSorted(ByText(), Keys(col, rows)), rows)
  }

  function AtLeast(minCount: int): Group -> bool {
    (g: Group) => g.count >= minCount
  }

  /** `ORDER BY count DESC`; the order of ties is left to the engine. */
  type Ranking = seq<Group> -> seq<Group>

  ghost predicate Descending(gs: seq<Group>) {
    forall i, j :: 0 <= i < j < |gs| ==> gs[i].count >= gs[j].count
  }

  ghost predicate Ranks(rank: Ranking) {
    forall gs :: multiset(rank(gs)) == multiset(gs) && Descending(rank(gs))
  }

  ghost predicate DistinctKeys(gs: seq<Group>) {
    forall i, j :: 0 <= i < j < |gs| ==> gs[i].key != gs[j].key
  }

  lemma KeysMember(col: Column, rows: seq<Row>, key: string)
    ensures key in Keys(col, rows) <==> CountOf(col, key, rows) > 0
  {
    var some := Filter(HasKey(col, key), rows);
    FilterMembers(HasKey(col, key), rows);
    if |some| > 0 {
      assert some[0] in some;
      var i :| 0 <= i < |rows| && rows[i] == some[0];
      assert Keys(col, rows)[i] == key;
    }
    if key in Keys(col, rows) {
      var i :| 0 <= i < |rows| && Keys(col, rows)[i] == key;
      assert rows[i] in some;
    }
  }

  /** Grouping yields each occurring key once, with the number of its rows. */
  lemma GroupByMeaning(col: Column, rows: seq<Row>)
    ensures DistinctKeys(GroupBy(col, rows))
    ensures forall g :: g in GroupBy(col, rows) <==> g.count == CountOf(col, g.key, rows) && g.count > 0
  {
    var keys := DistinctSorted(ByText(), Keys(col, rows));
    TextIsOrdered();
    DistinctSortedIncreasing(ByText(), Keys(col, rows));
    forall g
      ensures g in GroupBy(col, rows) <==> g.count == CountOf(col, g.key, rows) && g.count > 0
    {
      DistinctSortedMember(ByText(), Keys(col, rows), g.key);
      KeysMember(col, rows, g.key);
      if g in GroupBy(col, rows) {
        var i :| 0 <= i < |keys| && GroupBy(col, rows)[i] == g;
        assert keys[i] == g.key && g.key in keys;
      }
      if g.count == CountOf(col, g.key, rows) && g.count > 0 {
        var i :| 0 <= i < |keys| && keys[i] == g.key;
        assert GroupBy(col, rows)[i] == g;
      }
    }
  }

  /** Reordering and selecting groups keeps keys distinct. */
  lemma {:induction false} FilterKeepsDistinct(p: Group -> bool, gs: seq<Group>)
    requires DistinctKeys(gs)
    ensures DistinctKeys(Filter(p, gs))
  {
    if gs != [] {
      FilterKeepsDistinct(p, gs[1..]);
      FilterMembers(p, gs[1..]);
      var rest := Filter(p, gs[1..]);
      assert forall i :: 0 <= i < |rest| ==> rest[i] in rest;
    }
  }

  lemma ReorderKeepsDistinct(a: seq<Group>, b: seq<Group>)
    requires multiset(a) == multiset(b) && DistinctKeys(a)
    ensures DistinctKeys(b)
    ensures forall g :: g in a <==> g in b
  {
    forall g
      ensures g in a <==> g in b
    {
      assert g in multiset(a) <==> g in multiset(b);
    }
    forall i, j | 0 <= i < j < |b|
      ensures b[i].key != b[j].key
    {
      assert b[i] in a && b[j] in a;
      var k :| 0 <= k < |a| && a[k] == b[i];
      var l :| 0 <= l < |a| && a[l] == b[j];
      if b[i] == b[j] {
        TwiceInMultiset(b, i, j);
        OnceInMultiset(a, k);
        assert false;
      }
    }
  }

  lemma TwiceInMultiset(s: seq<Group>, i: int, j: int)
    requires 0 <= i < j < |s| && s[i] == s[j]
    ensures multiset(s)[s[i]] >= 2
  {
    assert s == s[..i] + [s[i]] + s[i + 1..j] + [s[j]] + s[j + 1..];
  }

  lemma OnceInMultiset(s: seq<Group>, k: int)
    requires 0 <= k < |s| && DistinctKeys(s)
    ensures multiset(s)[s[k]] == 1
  {
    assert s == s[..k] + [s[k]] + s[k + 1..];
    assert s[k] !in s[..k] && s[k] !in s[k + 1..];
    assert multiset(s[..k])[s[k]] == 0 && multiset(s[k + 1..])[s[k]] == 0;
  }

  // ----- the top errors of a group -----

  function AtMostFive(n: nat): nat {
    if n < 5 then n else 5
  }

  /** The keys of ranked chains, without the empty one. */
  function Chains(gs: seq<Group>): seq<string> {
    if gs == [] then [] else (if gs[0].key != "" then [gs[0].key] else []) + Chains(gs[1..])
  }

  /** `top` are the first five of the group's chains in some descending order, without the empty one. */
  ghost predicate IsRankedTop(top: seq<string>, ranked: seq<Group>, rows: seq<Row>) {
    && multiset(ranked) == multiset(GroupBy(ErrorChain, rows)) && Descending(ranked)
    && top == Chains(ranked[..AtMostFive(|ranked|)])
  }

  /** The error chains shown for a group: of its distinct chains the five most frequent, or all if
      there are fewer, in descending order and without the empty chain, which costs its place. */
  ghost predicate IsTop(top: seq<string>, rows: seq<Row>) {
    && (exists ranked :: IsRankedTop(top, ranked, rows))
    && AtMostFive(|GroupBy(ErrorChain, rows)|) - 1 <= |top| <= AtMostFive(|GroupBy(ErrorChain, rows)|)
    && (CountOf(ErrorChain, "", rows) == 0 ==> |top| == AtMostFive(|GroupBy(ErrorChain, rows)|))
    && (forall i, j :: 0 <= i < j < |top| ==> top[i] != top[j])
    && (forall i, j :: 0 <= i < j < |top| ==> CountOf(ErrorChain, top[i], rows) >= CountOf(ErrorChain, top[j], rows))
    && (forall chain :: chain in top ==> chain != "" && CountOf(ErrorChain, chain, rows) > 0)
    && (forall chain, other :: chain in top && other !in top && other != "" ==>
                                 CountOf(ErrorChain, other, rows) <= CountOf(ErrorChain, chain, rows))
    && (|top| < 4 ==> forall chain :: chain != "" && CountOf(ErrorChain, chain, rows) > 0 ==> chain in top)
  }

  lemma {:induction false} ChainsSnoc(gs: seq<Group>, g: Group)
    ensures Chains(gs + [g]) == Chains(gs) + if g.key != "" then [g.key] else []
  {
    if gs == [] {
      assert (gs + [g])[1..] == [];
    } else {
      assert (gs + [g])[1..] == gs[1..] + [g];
      ChainsSnoc(gs[1..], g);
    }
  }

  ghost predicate CarriesCounts(gs: seq<Group>, rows: seq<Row>) {
    forall i :: 0 <= i < |gs| ==> gs[i].count == CountOf(ErrorChain, gs[i].key, rows) && gs[i].count > 0
  }

  ghost predicate Occurs(gs: seq<Group>, key: string) {
    exists i :: 0 <= i < |gs| && gs[i].key == key
  }

  lemma {:induction false} ChainsMember(gs: seq<Group>, chain: string)
    ensures chain in Chains(gs) <==> chain != "" && Occurs(gs, chain)
  {
    if gs != [] {
      ChainsMember(gs[1..], chain);
      if i :| 0 < i < |gs| && gs[i].key == chain {
        assert gs[1..][i - 1].key == chain;
      }
      if k :| 0 <= k < |gs[1..]| && gs[1..][k].key == chain {
        assert gs[k + 1].key == chain;
      }
    }
  }

  /** Only the empty chain is skipped, and it occurs at most once. */
  lemma {:induction false} ChainsLength(gs: seq<Group>)
    requires DistinctKeys(gs)
    ensures |gs| - 1 <= |Chains(gs)| <= |gs|
    ensures |Chains(gs)| < |gs| ==> Occurs(gs, "")
  {
    if gs != [] {
      ChainsLength(gs[1..]);
      if k :| 0 <= k < |gs[1..]| && gs[1..][k].key == "" {
        assert gs[k + 1].key == "";
      }
    }
  }

  lemma {:induction false} ChainsOrder(gs: seq<Group>, rows: seq<Row>)
    requires DistinctKeys(gs) && Descending(gs) && CarriesCounts(gs, rows)
    ensures forall i, j :: 0 <= i < j < |Chains(gs)| ==>
                             && Chains(gs)[i] != Chains(gs)[j]
                             && CountOf(ErrorChain, Chains(gs)[i], rows) >= CountOf(ErrorChain, Chains(gs)[j], rows)
  {
    if gs != [] {
      var rest := gs[1..];
      ChainsOrder(rest, rows);
      forall i | 0 <= i < |Chains(rest)|
        ensures Chains(rest)[i] != gs[0].key && CountOf(ErrorChain, Chains(rest)[i], rows) <= CountOf(ErrorChain, gs[0].key, rows)
      {
        ChainsMember(rest, Chains(rest)[i]);
        var k :| 0 <= k < |rest| && rest[k].key == Chains(rest)[i];
        assert gs[k + 1] == rest[k];
      }
    }
  }

  /** The top are at most five error chains of the rows. */
  ghost predicate AreTopErrors(top: seq<string>, rows: seq<Row>) {
    IsTop(top, rows) && |top| <= 5 && forall chain :: chain in top ==> exists row :: row in rows && row.errorChain == chain
  }

  /** Reads the first five ranked chains and skips the empty one. */
  method TopErrors(rank: Ranking, rows: seq<Row>) returns (top: seq<string>)
    requires Ranks(rank)
    ensures AreTopErrors(top, rows)
  {
    var ranked := rank(GroupBy(ErrorChain, rows));
    var limit := AtMostFive(|ranked|);
    top := [];
    for i := 0 to limit
      invariant top == Chains(ranked[..i])
    {
      assert ranked[..i + 1] == ranked[..i] + [ranked[i]];
      ChainsSnoc(ranked[..i], ranked[i]);
      if ranked[i].key != "" {
        top := top + [ranked[i].key];
      }
    }
    GroupByMeaning(ErrorChain, rows);
    ReorderKeepsDistinct(GroupBy(ErrorChain, rows), ranked);
    assert |multiset(ranked)| == |multiset(GroupBy(ErrorChain, rows))|;
    TopOfRanked(ranked, limit, rows);
    forall chain {
      ChainOfRow(chain, rows);
    }
  }

  lemma ChainOfRow(chain: string, rows: seq<Row>)
    ensures CountOf(ErrorChain, chain, rows) > 0 <==> exists row :: row in rows && row.errorChain == chain
  {
    FilterMembers(HasKey(ErrorChain, chain), rows);
    if CountOf(ErrorChain, chain, rows) > 0 {
      assert Filter(HasKey(ErrorChain, chain), rows)[0] in rows;
    }
  }

  /** A chain that was not read ranks behind all that were. */
  lemma OmittedIsRarer(ranked: seq<Group>, limit: nat, rows: seq<Row>, other: string, chain: string)
    requires Descending(ranked) && limit <= |ranked| && CarriesCounts(ranked, rows)
    requires Occurs(ranked, other) && !Occurs(ranked[..limit], other)
    ensures limit < |ranked|
    ensures Occurs(ranked[..limit], chain) ==> CountOf(ErrorChain, other, rows) <= CountOf(ErrorChain, chain, rows)
  {
  }

  /** The chains read: as many as there is room for, but for the empty one, and all of the group. */
  lemma FirstChains(ranked: seq<Group>, limit: nat, rows: seq<Row>)
    requires DistinctKeys(ranked) && limit <= |ranked| && CarriesCounts(ranked, rows)
    ensures limit - 1 <= |Chains(ranked[..limit])| <= limit
    ensures CountOf(ErrorChain, "", rows) == 0 ==> |Chains(ranked[..limit])| == limit
    ensures forall chain :: chain in Chains(ranked[..limit]) <==> chain != "" && Occurs(ranked[..limit], chain)
    ensures forall chain :: Occurs(ranked[..limit], chain) ==> CountOf(ErrorChain, chain, rows) > 0
  {
    var first := ranked[..limit];
    ChainsLength(first);
    forall chain {
      ChainsMember(first, chain);
    }
    forall chain | Occurs(first, chain)
      ensures CountOf(ErrorChain, chain, rows) > 0
    {
      var i :| 0 <= i < |first| && first[i].key == chain;
      assert ranked[i] == first[i];
    }
  }

  lemma TopOfRanked(ranked: seq<Group>, limit: nat, rows: seq<Row>)
    requires DistinctKeys(ranked) && Descending(ranked)
    requires forall g :: g in ranked <==> g.count == CountOf(ErrorChain, g.key, rows) && g.count > 0
    requires limit == AtMostFive(|ranked|) && |ranked| == |GroupBy(ErrorChain, rows)|
    requires multiset(ranked) == multiset(GroupBy(ErrorChain, rows))
    ensures IsTop(Chains(ranked[..limit]), rows)
  {
    var first := ranked[..limit];
    var top := Chains(first);
    assert IsRankedTop(top, ranked, rows);
    assert CarriesCounts(ranked, rows) by {
      assert forall i :: 0 <= i < |ranked| ==> ranked[i] in ranked;
    }
    ChainsOrder(first, rows);
    FirstChains(ranked, limit, rows);
    forall other | CountOf(ErrorChain, other, rows) > 0 && other != "" && other !in top
      ensures limit < |ranked|
      ensures forall chain :: chain in top ==> CountOf(ErrorChain, other, rows) <= CountOf(ErrorChain, chain, rows)
    {
      assert Group(other, CountOf(ErrorChain, other, rows)) in ranked;
      assert Occurs(ranked, other);
      OmittedIsRarer(ranked, limit, rows, other, other);
      forall chain | chain in top {
        OmittedIsRarer(ranked, limit, rows, other, chain);
      }
    }
  }

  // ----- Aggregate -----

  /** Each result is a group of the window: its key, its number of rows, its most frequent errors. */
  ghost predicate Describes(col: Column, window: seq<Row>, minCount: int, r: AggregateResult) {
    && r.count == CountOf(col, r.key, window) && r.count >= 1 && r.count >= minCount
    && AreTopErrors(r.topErrors, Filter(HasKey(col, r.key), window))
  }

  /** The same, of the group as it was asked for. */
  ghost predicate Summarises(f: AggregateFilter, now: Time, rows: seq<Row>, r: AggregateResult) {
    var group := Filter(InGroup(f, now, r.key), rows);
    && r.count == |group| && r.count >= 1 && r.count >= f.minCount
    && AreTopErrors(r.topErrors, group)
  }

  /** `GROUP BY ... HAVING count >= minCount ORDER BY count DESC` */
  method RankedGroups(col: Column, minCount: int, rank: Ranking, window: seq<Row>) returns (groups: seq<Group>)
    requires Ranks(rank) && minCount >= 1
    ensures DistinctKeys(groups) && Descending(groups)
    ensures forall g :: g in groups <==> g.count == CountOf(col, g.key, window) && g.count >= minCount
  {
    var all := GroupBy(col, window);
    groups := rank(Filter(AtLeast(minCount), all));
    GroupByMeaning(col, window);
    FilterKeepsDistinct(AtLeast(minCount), all);
    FilterMembers(AtLeast(minCount), all);
    ReorderKeepsDistinct(Filter(AtLeast(minCount), all), groups);
  }

  ghost predicate DescribesGroup(col: Column, window: seq<Row>, minCount: int, group: Group, r: AggregateResult) {
    r.key == group.key && r.count == group.count && Describes(col, window, minCount, r)
  }

  ghost predicate DescribesFirst(col: Column, window: seq<Row>, minCount: int, groups: seq<Group>, rs: seq<AggregateResult>) {
    |rs| <= |groups| && forall i :: 0 <= i < |rs| ==> DescribesGroup(col, window, minCount, groups[i], rs[i])
  }

  lemma DescribesOneMore(col: Column, window: seq<Row>, minCount: int, groups: seq<Group>, rs: seq<AggregateResult>, r: AggregateResult)
    requires DescribesFirst(col, window, minCount, groups, rs) && |rs| < |groups|
    requires DescribesGroup(col, window, minCount, groups[|rs|], r)
    ensures DescribesFirst(col, window, minCount, groups, rs + [r])
  {
  }

  method DescribeGroup(col: Column, minCount: int, rank: Ranking, window: seq<Row>, group: Group) returns (r: AggregateResult)
    requires Ranks(rank) && minCount >= 1
    requires group.count == CountOf(col, group.key, window) && group.count >= minCount
    ensures DescribesGroup(col, window, minCount, group, r)
  {
    var top := TopErrors(rank, Filter(HasKey(col, group.key), window));
    r := AggregateResult(group.key, group.count, top);
  }

  /** The second loop: one query for the top errors of each group. */
  method DescribeGroups(col: Column, minCount: int, rank: Ranking, window: seq<Row>, groups: seq<Group>)
    returns (results: seq<AggregateResult>)
    requires Ranks(rank) && minCount >= 1
    requires forall g :: g in groups ==> g.count == CountOf(col, g.key, window) && g.count >= minCount
    ensures |results| == |groups| && DescribesFirst(col, window, minCount, groups, results)
  {
    results := [];
    for i := 0 to |groups|
      invariant |results| == i && DescribesFirst(col, window, minCount, groups, results)
    {
      assert groups[i] in groups;
      var result := DescribeGroup(col, minCount, rank, window, groups[i]);
      DescribesOneMore(col, window, minCount, groups, results, result);
      results := results + [result];
    }
  }

  /** Exactly the groups of the window with enough rows are returned, each once, most frequent first. */
  method Aggregate(f: AggregateFilter, now: Time, rank: Ranking, rows: seq<Row>)
    returns (r: Result<seq<AggregateResult>, string>)
    requires Ranks(rank)
    ensures r.Ok? <==> f.groupBy in ["route", "status_code", "method", "error_chain"]
    ensures r.Ok? ==>
              && (forall i :: 0 <= i < |r.value| ==> Summarises(f, now, rows, r.value[i]))
              && (forall i, j :: 0 <= i < j < |r.value| ==> r.value[i].key != r.value[j].key && r.value[i].count >= r.value[j].count)
              && (forall key :: |Filter(InGroup(f, now, key), rows)| >= 1 && |Filter(InGroup(f, now, key), rows)| >= f.minCount ==>
                                  Reports(r.value, key))
  {
    var found := GroupColumn(f.groupBy);
    if found.None? {
      return Err("unsupported GroupBy field: " + f.groupBy);
    }
    var col := found.value;
    var window := Filter(InWindow(f, now), rows);
    var minCount := if f.minCount < 1 then 1 else f.minCount;
    var groups := RankedGroups(col, minCount, rank, window);
    var results := DescribeGroups(col, minCount, rank, window, groups);
    forall key {
      KeyedIsGrouped(f, now, key, rows);
    }
    forall key | CountOf(col, key, window) >= 1 && CountOf(col, key, window) >= f.minCount
      ensures Reports(results, key)
    {
      var g := Group(key, CountOf(col, key, window));
      assert g in groups;
      var i :| 0 <= i < |groups| && groups[i] == g;
      assert results[i].key == key;
    }
    return Ok(results);
  }

  ghost predicate Reports(rs: seq<AggregateResult>, key: string) {
    exists i :: 0 <= i < |rs| && rs[i].key == key
  }

  // ----- partition -----

  function SumCounts(rs: seq<AggregateResult>): int {
    if rs == [] then 0 else rs[0].count + SumCounts(rs[1..])
  }

  /** When distinct results carry the counts of their keys, and between them every key of the rows,
      the counts add up to the number of rows: the groups partition the window. */
  lemma {:induction false} GroupsPartition(col: Column, rs: seq<AggregateResult>, rows: seq<Row>)
    requires forall i :: 0 <= i < |rs| ==> rs[i].count == CountOf(col, rs[i].key, rows)
    requires forall i, j :: 0 <= i < j < |rs| ==> rs[i].key != rs[j].key
    requires forall row :: row in rows ==> Reports(rs, KeyOf(col, row))
    ensures SumCounts(rs) == |rows|
  {
    if rs == [] {
      forall i | 0 <= i < |rows|
        ensures Reports(rs, KeyOf(col, rows[i]))
      {
      }
    } else {
      var key := rs[0].key;
      var others := Filter(LacksKey(col, key), rows);
      FilterSplits(HasKey(col, key), LacksKey(col, key), rows);
      FilterMembers(LacksKey(col, key), rows);
      forall i | 0 <= i < |rs[1..]|
        ensures rs[1..][i].count == CountOf(col, rs[1..][i].key, others)
      {
        FilterTwice(LacksKey(col, key), HasKey(col, rs[i + 1].key), HasKey(col, rs[i + 1].key), rows);
      }
      forall row | row in others
        ensures Reports(rs[1..], KeyOf(col, row))
      {
        var i :| 0 <= i < |rs| && rs[i].key == KeyOf(col, row);
        assert rs[1..][i - 1].key == KeyOf(col, row);
      }
      GroupsPartition(col, rs[1..], others);
    }
  }

  function LacksKey(col: Column, key: string): Row -> bool {
    (row: Row) => KeyOf(col, row) != key
  }

  /** With a minimum of one, what `Aggregate` returns accounts for every row of the window once. */
  method AggregateAll(f: AggregateFilter, now: Time, rank: Ranking, rows: seq<Row>) returns (rs: seq<AggregateResult>)
    requires Ranks(rank) && f.minCount <= 1 && f.groupBy in ["route", "status_code", "method", "error_chain"]
    ensures SumCounts(rs) == |Filter(Recent(f, now), rows)|
  {
    var r := Aggregate(f, now, rank, rows);
    rs := r.value;
    WindowIsRecent(f, now, rows);
    forall key {
      KeyedIsGrouped(f, now, key, rows);
    }
    var col, window := GroupColumn(f.groupBy).value, Filter(InWindow(f, now), rows);
    forall row | row in window
      ensures Reports(rs, KeyOf(col, row))
    {
      FilterMembers(HasKey(col, KeyOf(col, row)), window);
      assert row in Filter(HasKey(col, KeyOf(col, row)), window);
      assert CountOf(col, KeyOf(col, row), window) >= 1;
    }
    GroupsPartition(col, rs, window);
  }
}
