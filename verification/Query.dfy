/** The WHERE builders of sqlite/store.go, against a direct reading of the filter. */
module Query {
  import opened Types
  import opened Text
  import opened Like
  import opened Sql

  // ----- what a filter means, without SQL -----

  const SEARCH_COLUMNS: seq<Column> := [Route, ErrorChain, RequestId, UserId, RemoteIp, Verb]

  ghost predicate FoundAmong(cols: seq<Column>, row: Row, term: string) {
    exists col :: col in cols && ColumnText(row, col).Some? && ContainsFold(ColumnText(row, col).value, term)
  }

  /** A term is found in a row when its route, error chain, request ID or method contains it, or its
      user ID or remote IP is not NULL and does. */
  ghost predicate FoundIn(row: Row, term: string) {
    || ContainsFold(row.route, term) || ContainsFold(row.errorChain, term)
    || ContainsFold(row.requestId, term) || ContainsFold(row.verb, term)
    || (row.userId.Some? && ContainsFold(row.userId.value, term))
    || (row.remoteIp.Some? && ContainsFold(row.remoteIp.value, term))
  }

  lemma SearchColumnsAre(row: Row, term: string)
    ensures FoundAmong(SEARCH_COLUMNS, row, term) <==> FoundIn(row, term)
  {
    var s := SEARCH_COLUMNS;
    assert Route in s && ErrorChain in s && RequestId in s && UserId in s && RemoteIp in s && Verb in s;
    assert StatusCode !in s;
  }

  /** A query of a single word. */
  ghost predicate IsOneWord(q: string) {
    q != "" && forall i :: 0 <= i < |q| ==> !IsSpace(q[i])
  }

  lemma OneWordIsItself(q: string, t: string)
    requires IsOneWord(q)
    ensures IsWordOf(q, t) <==> t == q
  {
    assert WordAt(q, 0, |q|) && q[0..|q|] == q;
    forall i, j | 0 < i <= |q|
      ensures !WordAt(q, i, j)
    {
      assert !IsSpace(q[i - 1]);
    }
    forall j | 0 <= j < |q|
      ensures !WordAt(q, 0, j)
    {
      assert !IsSpace(q[j]);
    }
  }

  /** Every word of the query is found in the row. */
  ghost predicate MatchesSearch(q: string, row: Row) {
    forall t :: IsWordOf(q, t) ==> FoundIn(row, t)
  }

  predicate MatchesStatus(w: World, status: string, row: Row) {
    if status == "" then true
    else if status == "4xx" then 400 <= row.statusCode < 500
    else if status == "5xx" then 500 <= row.statusCode
    else
      match w.scanInt(status)
      case Some(code) => code > 0 ==> row.statusCode == code
      case None => true
  }

  predicate MatchesMethod(verb: string, row: Row) {
    verb == "" || row.verb == verb
  }

  /** The tag that a filter on key k looks at. */
  function TagValue(w: World, row: Row, k: string): Option<string> {
    JsonExtract(w, row.tags, "$." + k)
  }

  ghost predicate MatchesTags(w: World, tags: Tags, row: Row) {
    forall k :: k in tags ==> TagValue(w, row, k) == Some(tags[k])
  }

  ghost predicate MatchesExcept(w: World, f: TraceFilter, exclude: string, row: Row) {
    && MatchesSearch(f.q, row)
    && (exclude != "status" ==> MatchesStatus(w, f.status, row))
    && (exclude != "method" ==> MatchesMethod(f.verb, row))
    && (exclude != "tags" ==> MatchesTags(w, f.tags, row))
  }

  ghost predicate Matches(w: World, f: TraceFilter, row: Row) {
    && MatchesSearch(f.q, row)
    && MatchesStatus(w, f.status, row)
    && MatchesMethod(f.verb, row)
    && MatchesTags(w, f.tags, row)
  }

  lemma OneWordSearch(w: World, f: TraceFilter, row: Row)
    requires IsOneWord(f.q) && f.status == "" && f.verb == "" && f.tags == map[]
    ensures Matches(w, f, row) <==> FoundIn(row, f.q)
  {
    OneWordIsItself(f.q, f.q);
    forall t {
      OneWordIsItself(f.q, t);
    }
  }

  /** For keys without JSON-path syntax, the tag test reads the row's tags directly. */
  lemma PlainTagsAreReadDirectly(w: World, tags: Tags, row: Row)
    requires forall k :: k in tags ==> PlainKey(k)
    ensures MatchesTags(w, tags, row) <==>
            tags == map[] || (row.tags.Some? && forall k :: k in tags ==> k in row.tags.value && row.tags.value[k] == tags[k])
  {
  }

  /** A NULL column never admits a row: giving it a value can only make more filters match, and a
      row without tags matches no tag filter. */
  lemma NullAdmitsNothing(w: World, f: TraceFilter, row: Row, v: string)
    requires Matches(w, f, row)
    ensures row.userId.None? ==> Matches(w, f, row.(userId := Some(v)))
    ensures row.remoteIp.None? ==> Matches(w, f, row.(remoteIp := Some(v)))
    ensures row.tags.None? ==> f.tags == map[]
  {
  }

  // ----- clauses -----

  ghost predicate AllFound(row: Row, terms: seq<string>) {
    forall t :: t in terms ==> FoundIn(row, t)
  }

  lemma SearchByTerms(q: string, row: Row)
    ensures AllFound(row, Fields(q)) <==> MatchesSearch(q, row)
  {
    forall t {
      FieldIffWord(q, t);
    }
  }

  function AnyLike(cols: seq<Column>): (c: Cond)
    requires cols != []
    ensures Arity(c) == |cols|
  {
    if |cols| == 1 then One(Prim.Like(cols[0])) else Or(Prim.Like(cols[0]), AnyLike(cols[1..]))
  }

  function Copies(n: nat, a: Arg): (r: seq<Arg>)
    ensures |r| == n
  {
    seq(n, _ => a)
  }

  lemma {:induction false} AnyLikeMeaning(w: World, cols: seq<Column>, pattern: string, row: Row)
    requires cols != []
    ensures Eval(w, Yes, AnyLike(cols), Copies(|cols|, TextArg(pattern)), row) == Yes <==>
            exists col :: col in cols && ColumnText(row, col).Some? && LikeMatch(pattern, ColumnText(row, col).value)
  {
    var args := Copies(|cols|, TextArg(pattern));
    if |cols| > 1 {
      AnyLikeMeaning(w, cols[1..], pattern, row);
      assert args[1..] == Copies(|cols| - 1, TextArg(pattern));
      assert forall col :: col in cols <==> col == cols[0] || col in cols[1..];
    } else {
      assert forall col :: col in cols <==> col == cols[0];
    }
  }

  function SearchPattern(term: string): string {
    "%" + EscapeLike(term) + "%"
  }

  function SearchClause(cols: seq<Column>): Cond
    requires cols != []
  {
    One(Paren(AnyLike(cols)))
  }

  /** One search term compiles to a clause that is true exactly of the rows it is found in. */
  lemma SearchClauseMeaning(w: World, cols: seq<Column>, term: string, row: Row)
    requires cols != []
    ensures var args := Copies(|cols|, TextArg(SearchPattern(term)));
            Eval(w, Yes, SearchClause(cols), args, row) == Yes <==> FoundAmong(cols, row, term)
  {
    var pattern := SearchPattern(term);
    AnyLikeMeaning(w, cols, pattern, row);
    forall col | ColumnText(row, col).Some?
      ensures LikeMatch(pattern, ColumnText(row, col).value) <==> ContainsFold(ColumnText(row, col).value, term)
    {
      EscapingIsExact(term, ColumnText(row, col).value);
    }
  }

  /** What the parentheses are for: without them a following clause would restrict the last column of
      the search only. */
  lemma {:induction false} ExposedSearchMeaning(w: World, cols: seq<Column>, term: string, d: Cond, more: seq<Arg>, row: Row)
    requires cols != [] && Conjunctive(d) && |more| == Arity(d)
    ensures var args := Copies(|cols|, TextArg(SearchPattern(term)));
            var last := |cols| - 1;
            Eval(w, Yes, JoinAnd(AnyLike(cols), d), args + more, row) == Yes <==>
            FoundAmong(cols[..last], row, term) || (FoundAmong(cols[last..], row, term) && Eval(w, Yes, d, more, row) == Yes)
  {
    var a, last := TextArg(SearchPattern(term)), |cols| - 1;
    if last == 0 {
      assert Copies(1, a) == [a] && cols == [cols[0]] == cols[0..] && cols[..0] == [];
      LastColumnMeaning(w, cols[0], term, d, more, row);
    } else {
      var rest := cols[1..];
      ExposedSearchMeaning(w, rest, term, d, more, row);
      assert rest[last - 1..] == cols[last..] && cols[..last] == [cols[0]] + rest[..last - 1];
      FoundInParts([cols[0]], rest[..last - 1], row, term);
      assert Copies(|cols|, a) + more == [a] + (Copies(last, a) + more);
      FirstColumnMeaning(w, cols, term, d, Copies(last, a) + more, row);
    }
  }

  lemma {:induction false} FirstColumnMeaning(w: World, cols: seq<Column>, term: string, d: Cond, args: seq<Arg>, row: Row)
    requires |cols| > 1 && |args| == |cols| - 1 + Arity(d)
    ensures Eval(w, Yes, JoinAnd(AnyLike(cols), d), [TextArg(SearchPattern(term))] + args, row) == Yes <==>
            FoundAmong([cols[0]], row, term) || Eval(w, Yes, JoinAnd(AnyLike(cols[1..]), d), args, row) == Yes
  {
    LikeFinds(w, cols[0], row, term);
    FirstOfOr(w, Prim.Like(cols[0]), AnyLike(cols[1..]), d, TextArg(SearchPattern(term)), args, row);
  }

  lemma {:induction false} LastColumnMeaning(w: World, col: Column, term: string, d: Cond, more: seq<Arg>, row: Row)
    requires Conjunctive(d) && |more| == Arity(d)
    ensures Eval(w, Yes, JoinAnd(AnyLike([col]), d), [TextArg(SearchPattern(term))] + more, row) == Yes <==>
            FoundAmong([col], row, term) && Eval(w, Yes, d, more, row) == Yes
  {
    var a := TextArg(SearchPattern(term));
    var first := One(Prim.Like(col));
    LikeFinds(w, col, row, term);
    JoinAndMeaning(w, Yes, first, d, [a], more, row);
    EvalAccumulates(w, Eval(w, Yes, first, [a], row), d, more, row);
  }

  lemma {:induction false} FirstOfOr(w: World, p: Prim, c: Cond, d: Cond, a: Arg, more: seq<Arg>, row: Row)
    requires PrimArity(p) == 1 && |more| == Arity(c) + Arity(d)
    ensures Eval(w, Yes, JoinAnd(Or(p, c), d), [a] + more, row) ==
            Or3(EvalPrim(w, p, [a], row), Eval(w, Yes, JoinAnd(c, d), more, row))
  {
    var all, rest := [a] + more, JoinAnd(c, d);
    assert all[..1] == [a] && all[1..] == more;
    assert Eval(w, Yes, Or(p, rest), all, row) == Or3(And3(Yes, EvalPrim(w, p, [a], row)), Eval(w, Yes, rest, more, row));
  }

  lemma FoundInParts(a: seq<Column>, b: seq<Column>, row: Row, term: string)
    ensures FoundAmong(a + b, row, term) <==> FoundAmong(a, row, term) || FoundAmong(b, row, term)
  {
  }

  lemma LikeFinds(w: World, col: Column, row: Row, term: string)
    ensures EvalPrim(w, Prim.Like(col), [TextArg(SearchPattern(term))], row) == Yes <==> FoundAmong([col], row, term)
  {
    assert col in [col];
    if ColumnText(row, col).Some? {
      EscapingIsExact(term, ColumnText(row, col).value);
    }
  }

  /** A search for "x" among failed requests, written without parentheses, would select a request that
      succeeded. */
  lemma ExposedSearchSelectsForeignRow(w: World, row: Row)
    requires row.statusCode == 200 && row.route == "x"
    ensures Eval(w, Yes, One(StatusAtLeast(500)), [], row) == No
    ensures Eval(w, Yes, JoinAnd(AnyLike(SEARCH_COLUMNS), One(StatusAtLeast(500))),
                 Copies(|SEARCH_COLUMNS|, TextArg(SearchPattern("x"))) + [], row) == Yes
  {
    ExposedSearchMeaning(w, SEARCH_COLUMNS, "x", One(StatusAtLeast(500)), [], row);
    assert FoundAmong(SEARCH_COLUMNS[..5], row, "x") by {
      assert SEARCH_COLUMNS[..5][0] == Route;
      FoldFindsItself("x");
    }
  }

  lemma FoldFindsItself(t: string)
    ensures ContainsFold(t, t)
  {
    assert FoldOccursAt(t, t, 0);
  }

  class WhereBuilder {
    var clauses: seq<Cond>
    var args: seq<Arg>

    /** Every placeholder has its argument, and every clause can be joined. */
    ghost predicate Valid()
      reads this
    {
      |args| == TotalArity(clauses) && forall c :: c in clauses ==> Conjunctive(c)
    }

    ghost predicate Keeps(w: World, row: Row)
      requires Valid()
      reads this
    {
      AllHold(w, clauses, args, row)
    }

    constructor ()
      ensures Valid() && forall w, row :: Keeps(w, row)
    {
      clauses, args := [], [];
    }

    method Push(c: Cond, more: seq<Arg>)
      requires Valid() && Conjunctive(c) && |more| == Arity(c)
      modifies this
      ensures Valid()
      ensures forall w, row :: Keeps(w, row) <==> old(Keeps(w, row)) && Eval(w, Yes, c, more, row) == Yes
    {
      TotalAritySnoc(clauses, c);
      forall w: World, row: Row {
        OneMoreClause(w, clauses, args, c, more, row);
      }
      clauses, args := clauses + [c], args + more;
    }

    method AddTerm(w: World, cols: seq<Column>, term: string)
      requires Valid() && cols != []
      modifies this
      ensures Valid() && forall row :: Keeps(w, row) <==> old(Keeps(w, row)) && FoundAmong(cols, row, term)
    {
      forall row {
        SearchClauseMeaning(w, cols, term, row);
      }
      Push(SearchClause(cols), Copies(|cols|, TextArg(SearchPattern(term))));
    }

    method AddSearch(w: World, f: TraceFilter)
      requires Valid()
      modifies this
      ensures Valid() && forall row :: Keeps(w, row) <==> old(Keeps(w, row)) && MatchesSearch(f.q, row)
    {
      var terms := Fields(f.q);
      forall row {
        SearchByTerms(f.q, row);
      }
      if f.q == "" {
        return;
      }
      for i := 0 to |terms|
        invariant Valid()
        invariant forall row :: Keeps(w, row) <==> old(Keeps(w, row)) && AllFound(row, terms[..i])
      {
        AddTerm(w, SEARCH_COLUMNS, terms[i]);
        assert terms[..i + 1] == terms[..i] + [terms[i]];
        forall row: Row {
          SearchColumnsAre(row, terms[i]);
        }
        forall row: Row
          ensures AllFound(row, terms[..i + 1]) <==> AllFound(row, terms[..i]) && FoundIn(row, terms[i])
        {
        }
      }
      assert terms[..|terms|] == terms;
    }

    method AddStatus(w: World, f: TraceFilter)
      requires Valid()
      modifies this
      ensures Valid() && forall row :: Keeps(w, row) <==> old(Keeps(w, row)) && MatchesStatus(w, f.status, row)
    {
      if f.status == "" {
        return;
      }
      match f.status
      case "4xx" =>
        Push(And(StatusAtLeast(400), One(StatusBelow(500))), []);
      case "5xx" =>
        Push(One(StatusAtLeast(500)), []);
      case _ =>
        var code := w.scanInt(f.status);
        if code.Some? && code.value > 0 {
          forall row: Row | Decimal(row.statusCode) == Decimal(code.value)
            ensures row.statusCode == code.value
          {
            DecimalInjective(row.statusCode, code.value);
          }
          Push(One(EqualsArg(StatusCode)), [IntArg(code.value)]);
        }
    }

    method AddMethod(w: World, f: TraceFilter)
      requires Valid()
      modifies this
      ensures Valid() && forall row :: Keeps(w, row) <==> old(Keeps(w, row)) && MatchesMethod(f.verb, row)
    {
      if f.verb != "" {
        Push(One(EqualsArg(Verb)), [TextArg(f.verb)]);
      }
    }

    /** The map is walked in an arbitrary order. */
    method AddTags(w: World, f: TraceFilter)
      requires Valid()
      modifies this
      ensures Valid() && forall row :: Keeps(w, row) <==> old(Keeps(w, row)) && MatchesTags(w, f.tags, row)
    {
      var remaining := f.tags.Keys;
      while remaining != {}
        invariant Valid() && remaining <= f.tags.Keys
        invariant forall row :: Keeps(w, row) <==>
                                old(Keeps(w, row)) && forall k :: k in f.tags && k !in remaining ==> TagValue(w, row, k) == Some(f.tags[k])
      {
        var k :| k in remaining;
        Push(One(TagEquals), [TextArg("$." + k), TextArg(f.tags[k])]);
        remaining := remaining - {k};
      }
    }

    method Finish(w: World) returns (where: Option<Cond>, outArgs: seq<Arg>)
      requires Valid()
      ensures |outArgs| == WhereArity(where)
      ensures forall row :: Selects(w, where, outArgs, row) <==> Keeps(w, row)
    {
      forall row {
        WhereStringMeaning(w, clauses, args, row);
      }
      return WhereString(clauses), args;
    }
  }

  /** The compiled clause has one argument for each placeholder and keeps exactly the rows that the
      filter describes, in whatever order the tag map was walked. */
  method BuildWhere(w: World, f: TraceFilter) returns (where: Option<Cond>, args: seq<Arg>)
    ensures |args| == WhereArity(where)
    ensures forall row :: Selects(w, where, args, row) <==> Matches(w, f, row)
    ensures IsOneWord(f.q) && f.status == "" && f.verb == "" && f.tags == map[] ==>
              forall row :: Selects(w, where, args, row) <==>
                            || ContainsFold(row.route, f.q) || ContainsFold(row.errorChain, f.q)
                            || ContainsFold(row.requestId, f.q) || ContainsFold(row.verb, f.q)
                            || (row.userId.Some? && ContainsFold(row.userId.value, f.q))
                            || (row.remoteIp.Some? && ContainsFold(row.remoteIp.value, f.q))
  {
    if IsOneWord(f.q) && f.status == "" && f.verb == "" && f.tags == map[] {
      forall row {
        OneWordSearch(w, f, row);
      }
    }
    var b := new WhereBuilder();
    b.AddSearch(w, f);
    b.AddStatus(w, f);
    b.AddMethod(w, f);
    b.AddTags(w, f);
    where, args := b.Finish(w);
  }

  method BuildWhereExcluding(w: World, f: TraceFilter, exclude: string) returns (where: Option<Cond>, args: seq<Arg>)
    ensures |args| == WhereArity(where)
    ensures forall row :: Selects(w, where, args, row) <==> MatchesExcept(w, f, exclude, row)
  {
    var b := new WhereBuilder();
    b.AddSearch(w, f);
    if exclude != "status" {
      b.AddStatus(w, f);
    }
    if exclude != "method" {
      b.AddMethod(w, f);
    }
    if exclude != "tags" {
      b.AddTags(w, f);
    }
    where, args := b.Finish(w);
  }
}
