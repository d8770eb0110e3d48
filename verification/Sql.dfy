/** The fragment of SQL that the WHERE builders of sqlite/store.go emit: conditions with positional
    `?` arguments, AND binding tighter than OR, and three-valued logic. */
module Sql {
  import opened Types
  import opened Text
  import opened Like

  /** Library behaviour that is left open: what `fmt.Sscanf(s, "%d", &code)` reads, and what
      `json_extract` yields for a path whose key is not a plain name. */
  datatype World = World(scanInt: string -> Option<int>, oddPath: (Tags, string) -> Option<string>)

  // ----- three-valued logic -----

  datatype Truth = Yes | No | Unknown

  function And3(a: Truth, b: Truth): Truth {
    if a == No || b == No then No else if a == Yes && b == Yes then Yes else Unknown
  }

  function Or3(a: Truth, b: Truth): Truth {
    if a == Yes || b == Yes then Yes else if a == No && b == No then No else Unknown
  }

  function Known(b: bool): Truth {
    if b then Yes else No
  }

  // ----- conditions -----

  datatype Column = Route | ErrorChain | RequestId | UserId | RemoteIp | Verb | StatusCode

  datatype Arg = TextArg(text: string) | IntArg(n: int)

  /** An operand of AND and OR. `Like`, `EqualsArg` consume one argument, `TagEquals`
      (`json_extract(tags, ?) = ?`) two. */
  datatype Prim =
    | Like(col: Column)
    | EqualsArg(col: Column)
    | StatusAtLeast(n: int)
    | StatusBelow(n: int)
    | TagEquals
    | Paren(inner: Cond)

  /** A condition as it is written: operands joined left to right, without grouping. */
  datatype Cond = One(p: Prim) | And(p: Prim, rest: Cond) | Or(p: Prim, rest: Cond)

  function PrimArity(p: Prim): nat {
    match p
    case Like(_) => 1
    case EqualsArg(_) => 1
    case StatusAtLeast(_) => 0
    case StatusBelow(_) => 0
    case TagEquals => 2
    case Paren(c) => Arity(c)
  }

  /** The number of placeholders. */
  function Arity(c: Cond): nat {
    match c
    case One(p) => PrimArity(p)
    case And(p, rest) => PrimArity(p) + Arity(rest)
    case Or(p, rest) => PrimArity(p) + Arity(rest)
  }

  /** The column of a row as text; `None` is NULL. */
  function ColumnText(row: Row, col: Column): Option<string> {
    match col
    case Route => Some(row.route)
    case ErrorChain => Some(row.errorChain)
    case RequestId => Some(row.requestId)
    case UserId => row.userId
    case RemoteIp => row.remoteIp
    case Verb => Some(row.verb)
    case StatusCode => Some(Decimal(row.statusCode))
  }

  /** Column affinity makes a number and its numeral interchangeable as arguments. */
  function ArgText(a: Arg): string {
    match a
    case TextArg(t) => t
    case IntArg(n) => Decimal(n)
  }

  /** A key that a JSON path "$.key" names as a whole. */
  predicate PlainKey(k: string) {
    k != "" && k[0] != '"' && '.' !in k && '[' !in k
  }

  lemma IdentifiersArePlain(k: string)
    requires k != "" && forall i :: 0 <= i < |k| ==> 'a' <= k[i] <= 'z' || 'A' <= k[i] <= 'Z' || '0' <= k[i] <= '9' || k[i] == '_'
    ensures PlainKey(k)
  {
  }

  function JsonExtract(w: World, tags: Option<Tags>, path: string): Option<string> {
    match tags
    case None => None
    case Some(m) =>
      if "$." <= path && PlainKey(path[2..]) then
        if path[2..] in m then Some(m[path[2..]]) else None
      else
        w.oddPath(m, path)
  }

  function EvalPrim(w: World, p: Prim, args: seq<Arg>, row: Row): Truth
    requires |args| == PrimArity(p)
    decreases p
  {
    match p
    case Like(col) =>
      (match ColumnText(row, col)
       case None => Unknown
       case Some(v) => Known(LikeMatch(ArgText(args[0]), v)))
    case EqualsArg(col) =>
      (match ColumnText(row, col)
       case None => Unknown
       case Some(v) => Known(v == ArgText(args[0])))
    case StatusAtLeast(n) => Known(row.statusCode >= n)
    case StatusBelow(n) => Known(row.statusCode < n)
    case TagEquals =>
      (match JsonExtract(w, row.tags, ArgText(args[0]))
       case None => Unknown
       case Some(v) => Known(v == ArgText(args[1])))
    case Paren(c) => Eval(w, Yes, c, args, row)
  }

  /** Evaluates c, where `acc` is the value of the AND chain to the left of c. */
  function Eval(w: World, acc: Truth, c: Cond, args: seq<Arg>, row: Row): Truth
    requires |args| == Arity(c)
    decreases c
  {
    match c
    case One(p) => And3(acc, EvalPrim(w, p, args, row))
    case And(p, rest) =>
      var n := PrimArity(p);
      Eval(w, And3(acc, EvalPrim(w, p, args[..n], row)), rest, args[n..], row)
    case Or(p, rest) =>
      var n := PrimArity(p);
      Or3(And3(acc, EvalPrim(w, p, args[..n], row)), Eval(w, Yes, rest, args[n..], row))
  }

  // ----- joining clauses -----

  /** The text of c, " AND ", the text of d. */
  function JoinAnd(c: Cond, d: Cond): (r: Cond)
    ensures Arity(r) == Arity(c) + Arity(d)
  {
    match c
    case One(p) => And(p, d)
    case And(p, rest) => And(p, JoinAnd(rest, d))
    case Or(p, rest) => Or(p, JoinAnd(rest, d))
  }

  /** No OR outside parentheses. */
  predicate Conjunctive(c: Cond) {
    match c
    case One(_) => true
    case And(_, rest) => Conjunctive(rest)
    case Or(_, _) => false
  }

  function TotalArity(clauses: seq<Cond>): nat {
    if clauses == [] then 0 else Arity(clauses[0]) + TotalArity(clauses[1..])
  }

  /** `whereString`: `None` is the empty string, which selects everything. */
  function WhereString(clauses: seq<Cond>): (r: Option<Cond>)
    ensures WhereArity(r) == TotalArity(clauses)
  {
    if clauses == [] then None
    else
      match WhereString(clauses[1..])
      case None => Some(clauses[0])
      case Some(rest) => Some(JoinAnd(clauses[0], rest))
  }

  function WhereArity(where: Option<Cond>): nat {
    match where
    case None => 0
    case Some(c) => Arity(c)
  }

  /** A WHERE clause keeps the rows for which it is true; false and unknown both drop the row. */
  predicate Selects(w: World, where: Option<Cond>, args: seq<Arg>, row: Row)
    requires |args| == WhereArity(where)
  {
    match where
    case None => true
    case Some(c) => Eval(w, Yes, c, args, row) == Yes
  }

  /** The clauses taken one by one, each with its own share of the arguments. */
  ghost predicate AllHold(w: World, clauses: seq<Cond>, args: seq<Arg>, row: Row)
    requires |args| == TotalArity(clauses)
  {
    clauses == [] ||
    (var n := Arity(clauses[0]);
     Eval(w, Yes, clauses[0], args[..n], row) == Yes && AllHold(w, clauses[1..], args[n..], row))
  }

  lemma {:induction false} EvalAccumulates(w: World, acc: Truth, c: Cond, args: seq<Arg>, row: Row)
    requires |args| == Arity(c) && Conjunctive(c)
    ensures Eval(w, acc, c, args, row) == And3(acc, Eval(w, Yes, c, args, row))
    decreases c
  {
    match c
    case One(p) =>
    case And(p, rest) =>
      var n := PrimArity(p);
      var v := EvalPrim(w, p, args[..n], row);
      EvalAccumulates(w, And3(acc, v), rest, args[n..], row);
      EvalAccumulates(w, And3(Yes, v), rest, args[n..], row);
  }

  lemma {:induction false} JoinAndMeaning(w: World, acc: Truth, c: Cond, d: Cond, a: seq<Arg>, b: seq<Arg>, row: Row)
    requires Conjunctive(c) && |a| == Arity(c) && |b| == Arity(d)
    ensures Eval(w, acc, JoinAnd(c, d), a + b, row) == Eval(w, Eval(w, acc, c, a, row), d, b, row)
    decreases c
  {
    var n := PrimArity(c.p);
    assert (a + b)[..n] == a[..n] && (a + b)[n..] == a[n..] + b;
    match c
    case One(p) =>
      assert a[..n] == a && a[n..] + b == b;
    case And(p, rest) =>
      JoinAndMeaning(w, And3(acc, EvalPrim(w, p, a[..n], row)), rest, d, a[n..], b, row);
  }

  /** Joining clauses by " AND " means that each of them holds, provided no clause shows an OR. */
  lemma {:induction false} WhereStringMeaning(w: World, clauses: seq<Cond>, args: seq<Arg>, row: Row)
    requires |args| == TotalArity(clauses)
    requires forall c :: c in clauses ==> Conjunctive(c)
    ensures Selects(w, WhereString(clauses), args, row) <==> AllHold(w, clauses, args, row)
    ensures WhereString(clauses).Some? ==> Conjunctive(WhereString(clauses).value)
  {
    if clauses != [] {
      var n := Arity(clauses[0]);
      WhereStringMeaning(w, clauses[1..], args[n..], row);
      match WhereString(clauses[1..]) {
        case None =>
          assert clauses[1..] == [];
          assert args[..n] == args;
        case Some(rest) =>
          assert args == args[..n] + args[n..];
          JoinAndMeaning(w, Yes, clauses[0], rest, args[..n], args[n..], row);
          EvalAccumulates(w, Eval(w, Yes, clauses[0], args[..n], row), rest, args[n..], row);
          JoinIsConjunctive(clauses[0], rest);
      }
    }
  }

  lemma {:induction false} JoinIsConjunctive(c: Cond, d: Cond)
    requires Conjunctive(c) && Conjunctive(d)
    ensures Conjunctive(JoinAnd(c, d))
  {
    if c.And? {
      JoinIsConjunctive(c.rest, d);
    }
  }

  /** The parentheses matter: after an exposed OR the joined clause can be false of a selected row. */
  lemma JoiningExposedOrFails(w: World, row: Row)
    requires row.statusCode == 200
    ensures Eval(w, Yes, One(StatusAtLeast(500)), [], row) == No
    ensures Eval(w, Yes, JoinAnd(Or(StatusBelow(300), One(StatusBelow(100))), One(StatusAtLeast(500))), [], row) == Yes
  {
  }

  lemma {:induction false} TotalAritySnoc(clauses: seq<Cond>, c: Cond)
    ensures TotalArity(clauses + [c]) == TotalArity(clauses) + Arity(c)
  {
    if clauses == [] {
      assert clauses + [c] == [c] && [c][1..] == [];
      assert TotalArity([c][1..]) == 0;
    } else {
      assert (clauses + [c])[1..] == clauses[1..] + [c];
      TotalAritySnoc(clauses[1..], c);
    }
  }

  lemma {:induction false} OneMoreClause(w: World, clauses: seq<Cond>, args: seq<Arg>, c: Cond, more: seq<Arg>, row: Row)
    requires |args| == TotalArity(clauses) && |more| == Arity(c)
    ensures TotalArity(clauses + [c]) == |args + more|
    ensures AllHold(w, clauses + [c], args + more, row) <==>
            AllHold(w, clauses, args, row) && Eval(w, Yes, c, more, row) == Yes
  {
    if clauses == [] {
      assert [c][1..] == [] && args + more == more && more[..|more|] == more && clauses + [c] == [c];
      assert TotalArity([c][1..]) == 0;
    } else {
      var n := Arity(clauses[0]);
      OneMoreClause(w, clauses[1..], args[n..], c, more, row);
      assert (clauses + [c])[1..] == clauses[1..] + [c];
      assert (args + more)[..n] == args[..n];
      assert (args + more)[n..] == args[n..] + more;
    }
  }
}
