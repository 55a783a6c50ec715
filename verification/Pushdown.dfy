/** Filter pushdown: what the executor returns for a scan's SQL text, and why re-applying the
    filters locally then gives exactly the right rows (crates/elan-query/src/planner/remote_scan.rs,
    crates/elan-query/src/catalog/table.rs). */
module StatementRoundTrip {
  import opened Wrappers
  import opened Sequences
  import opened Decimal
  import opened SqlPrinter
  import opened SqlReader
  import opened SqlRoundTrip

  /** The filters that reach the executor. */
  function Pushed(filters: seq<Expr>): seq<Expr> {
    Filter(Supported, filters)
  }

  ghost predicate AllPrintable(filters: seq<Expr>) {
    forall f :: f in filters ==> Printable(f)
  }

  /** The conjunction the reader builds from acc and the filters that follow it. */
  function RereadAll(acc: Expr, filters: seq<Expr>): Option<Expr>
    decreases |filters|
  {
    if filters == [] then Some(acc)
    else
      match Reread(filters[0])
      case None => None
      case Some(f) => RereadAll(Binary(acc, And, f), filters[1..])
  }

  function RereadConjunction(filters: seq<Expr>): Option<Expr>
    requires filters != []
  {
    match Reread(filters[0])
    case None => None
    case Some(f) => RereadAll(f, filters[1..])
  }

  ghost function TailTokens(filters: seq<Expr>): seq<Token>
    requires AllPrintable(filters)
  {
    if filters == [] then [] else [AND] + Tokens(filters[0]) + TailTokens(filters[1..])
  }

  lemma {:induction false} TranslateIsPushed(filters: seq<Expr>)
    requires AllPrintable(Pushed(filters))
    ensures |Translate(filters)| == |Pushed(filters)|
    ensures forall i :: 0 <= i < |Pushed(filters)| ==> Translate(filters)[i] == Sql(Pushed(filters)[i])
  {
    hide ExprToSql, Supported, Printable;
    if filters != [] {
      TranslatedWholly(filters[0]);
      assert forall f :: f in Pushed(filters[1..]) ==> f in Pushed(filters);
      TranslateIsPushed(filters[1..]);
      if Supported(filters[0]) {
        assert Pushed(filters) == [filters[0]] + Pushed(filters[1..]);
        assert Printable(Pushed(filters)[0]);
      }
    }
  }

  lemma LexSpacedWord(word: string, s: string)
    requires word != "" && (forall c :: c in word ==> IsWordChar(c))
    ensures Lex(" " + (word + (" " + s))) == [Word(word)] + Lex(s)
  {
    LexSpace(s);
    LexWord(word, " " + s);
    LexSpace(word + (" " + s));
  }

  lemma JoinText(first: string, rest: string, after: string)
    ensures first + " AND " + rest + after == first + (" " + ("AND" + (" " + (rest + after))))
  {
  }

  lemma {:induction false} LexJoin(parts: seq<string>, filters: seq<Expr>, rest: string)
    requires filters != [] && |parts| == |filters| && AllPrintable(filters) && Delimits(rest)
    requires forall i :: 0 <= i < |filters| ==> parts[i] == Sql(filters[i])
    ensures Lex(JoinAnd(parts) + rest) == Tokens(filters[0]) + TailTokens(filters[1..]) + Lex(rest)
  {
    hide Lex, Sql, Tokens;
    if |filters| == 1 {
      LexPrinted(filters[0], rest);
    } else {
      var tail := JoinAnd(parts[1..]) + rest;
      LexJoin(parts[1..], filters[1..], rest);
      LexSpacedWord("AND", tail);
      LexPrinted(filters[0], " " + ("AND" + (" " + tail)));
      JoinText(parts[0], JoinAnd(parts[1..]), rest);
      assert [AND] + (Tokens(filters[1]) + TailTokens(filters[1..][1..]) + Lex(rest))
          == TailTokens(filters[1..]) + Lex(rest);
    }
  }

  lemma {:induction false} ParseTail(acc: Expr, filters: seq<Expr>, k: seq<Token>)
    requires AllPrintable(filters) && Stops(k)
    ensures AndTail(acc, TailTokens(filters) + k) == Then(RereadAll(acc, filters), k)
    decreases |filters|
  {
    var ts := TailTokens(filters) + k;
    hide Tokens, ParseNot, Reread, Printable;
    if filters == [] {
      assert ts == k;
    } else {
      var k' := TailTokens(filters[1..]) + k;
      ReadsAsNotOperand(filters[0], k');
      assert ts == [AND] + (Tokens(filters[0]) + k');
      assert ts[1..] == Tokens(filters[0]) + k';
      hide TailTokens, AndTail;
      AndTailStep(acc, ts, Reread(filters[0]), k');
      if Reread(filters[0]).Some? {
        ParseTail(Binary(acc, And, Reread(filters[0]).value), filters[1..], k);
      }
    }
  }

  lemma ParseJoin(filters: seq<Expr>, k: seq<Token>)
    requires filters != [] && AllPrintable(filters) && Stops(k)
    ensures ParseOr(Tokens(filters[0]) + TailTokens(filters[1..]) + k) == Then(RereadConjunction(filters), k)
  {
    var rest := TailTokens(filters[1..]) + k;
    var ts := Tokens(filters[0]) + rest;
    assert Tokens(filters[0]) + TailTokens(filters[1..]) + k == ts;
    ReadsAsNotOperand(filters[0], rest);
    if Reread(filters[0]).Some? {
      ParseTail(Reread(filters[0]).value, filters[1..], k);
      assert ParseAnd(ts) == Then(RereadConjunction(filters), k);
    } else {
      assert ParseAnd(ts).None?;
    }
  }

  ghost function LimitTokens(limit: Option<nat>): seq<Token> {
    if limit.None? then [] else [LIMIT, Word(Numeral(limit.value))]
  }

  lemma LimitText(n: string)
    ensures " LIMIT " + n == " " + ("LIMIT" + (" " + n))
  {
  }

  lemma LexLimit(limit: Option<nat>)
    ensures Lex(LimitClause(limit)) == LimitTokens(limit)
  {
    assert Lex("") == [];
    if limit.Some? {
      hide Lex, Numeral;
      var n := Numeral(limit.value);
      NumeralRoundTrip(limit.value);
      LexWord(n, "");
      assert n + "" == n;
      LimitText(n);
      LexSpacedWord("LIMIT", n);
    }
  }

  lemma HeaderText(table: string, rest: string)
    ensures "SELECT * FROM \"" + table + "\"" + rest
            == "SELECT" + (" " + ("*" + (" " + ("FROM" + (" " + ("\"" + table + "\"" + rest))))))
  {
  }

  lemma LexStar(rest: string)
    ensures Lex("*" + rest) == [Star] + Lex(rest)
  {
    LexStep("*", [Star], rest);
  }

  lemma LexHeader(table: string, rest: string)
    requires '"' !in table
    ensures Lex("SELECT * FROM \"" + table + "\"" + rest)
            == [Word("SELECT"), Star, Word("FROM"), Ident(table)] + Lex(rest)
  {
    var ident := "\"" + table + "\"" + rest;
    var from := " " + ("FROM" + (" " + ident));
    hide Lex;
    LexIdent(table, rest);
    LexSpacedWord("FROM", ident);
    LexStar(from);
    LexSpace("*" + from);
    LexWord("SELECT", " " + ("*" + from));
    HeaderText(table, rest);
    assert [Word("SELECT")] + ([Star] + ([Word("FROM")] + ([Ident(table)] + Lex(rest))))
        == [Word("SELECT"), Star, Word("FROM"), Ident(table)] + Lex(rest);
  }

  lemma WhereText(body: string, after: string)
    ensures " WHERE " + body + after == " " + ("WHERE" + (" " + (body + after)))
  {
  }

  lemma LexWhere(parts: seq<string>, filters: seq<Expr>, limit: Option<nat>)
    requires filters != [] && |parts| == |filters| && AllPrintable(filters)
    requires forall i :: 0 <= i < |filters| ==> parts[i] == Sql(filters[i])
    ensures Lex(WhereClause(parts) + LimitClause(limit))
            == [WHERE] + (Tokens(filters[0]) + TailTokens(filters[1..]) + LimitTokens(limit))
  {
    hide Lex;
    LexLimit(limit);
    LexJoin(parts, filters, LimitClause(limit));
    LexSpacedWord("WHERE", JoinAnd(parts) + LimitClause(limit));
    WhereText(JoinAnd(parts), LimitClause(limit));
  }

  lemma ReadLimitTokens(table: string, condition: Option<Expr>, limit: Option<nat>)
    ensures ReadLimit(table, condition, LimitTokens(limit)) == Some(Statement(table, condition, limit))
  {
    if limit.Some? {
      NumeralRoundTrip(limit.value);
    }
  }

  function ExpectedStatement(table: string, pushed: seq<Expr>, limit: Option<nat>): Option<Statement> {
    if pushed == [] then Some(Statement(table, None, limit))
    else
      match RereadConjunction(pushed)
      case None => None
      case Some(e) => Some(Statement(table, Some(e), limit))
  }

  lemma ReadAfterHeader(text: string, table: string, body: seq<Token>)
    requires Lex(text) == [Word("SELECT"), Star, Word("FROM"), Ident(table)] + body
    ensures ReadStatement(text)
            == if !StartsWith(body, WHERE) then ReadLimit(table, None, body)
               else match ParseOr(body[1..])
                    case None => None
                    case Some((e, rest)) => ReadLimit(table, Some(e), rest)
  {
    hide Lex, ParseOr, ReadLimit;
    var ts := Lex(text);
    assert ts[..3] == [Word("SELECT"), Star, Word("FROM")] && ts[3] == Ident(table);
    assert ts[4..] == body && (body != [] ==> ts[5..] == body[1..]);
  }

  lemma UnfilteredReadsBack(text: string, table: string, limit: Option<nat>)
    requires Lex(text) == [Word("SELECT"), Star, Word("FROM"), Ident(table)] + LimitTokens(limit)
    ensures ReadStatement(text) == Some(Statement(table, None, limit))
  {
    ReadAfterHeader(text, table, LimitTokens(limit));
    ReadLimitTokens(table, None, limit);
    hide Lex, ReadStatement, ReadLimit;
  }

  lemma FilteredReadsBack(text: string, table: string, pushed: seq<Expr>, limit: Option<nat>)
    requires pushed != [] && AllPrintable(pushed)
    requires Lex(text) == [Word("SELECT"), Star, Word("FROM"), Ident(table)]
                          + ([WHERE] + (Tokens(pushed[0]) + TailTokens(pushed[1..]) + LimitTokens(limit)))
    ensures ReadStatement(text) == ExpectedStatement(table, pushed, limit)
  {
    var condition := Tokens(pushed[0]) + TailTokens(pushed[1..]) + LimitTokens(limit);
    var body := [WHERE] + condition;
    ReadAfterHeader(text, table, body);
    assert StartsWith(body, WHERE) && body[1..] == condition;
    ParseJoin(pushed, LimitTokens(limit));
    hide Lex, ReadStatement, ReadLimit, ParseOr, Tokens, TailTokens, Reread, RereadAll;
    if RereadConjunction(pushed).Some? {
      ReadLimitTokens(table, RereadConjunction(pushed), limit);
    }
  }

  /** The whole statement reads back as the table, the conjunction of the translated filters in
      order, and the limit: no filter's text runs into its neighbour or into the other clauses. */
  lemma StatementReadsBack(table: string, filters: seq<Expr>, limit: Option<nat>)
    requires '"' !in table && AllPrintable(Pushed(filters))
    ensures ReadStatement(ScanSql(table, filters, limit)) == ExpectedStatement(table, Pushed(filters), limit)
  {
    var pushed, parts := Pushed(filters), Translate(filters);
    var clauses := WhereClause(parts) + LimitClause(limit);
    var text := ScanSql(table, filters, limit);
    assert text == "SELECT * FROM \"" + table + "\"" + clauses;
    TranslateIsPushed(filters);
    LexHeader(table, clauses);
    if pushed == [] {
      assert clauses == LimitClause(limit);
      LexLimit(limit);
      hide Lex, ReadStatement;
      UnfilteredReadsBack(text, table, limit);
    } else {
      LexWhere(parts, pushed, limit);
      hide Lex, ReadStatement, ExpectedStatement;
      FilteredReadsBack(text, table, pushed, limit);
    }
  }
}

module Pushdown {
  import opened Wrappers
  import opened Sequences
  import opened SqlPrinter
  import opened SqlReader
  import opened SqlRoundTrip
  import opened StatementRoundTrip

  // ----- Three-valued evaluation -----

  datatype Value = IntValue(i: int) | BoolValue(b: bool) | NullValue | ForeignValue(text: string)

  type Row = map<string, Value>

  /** The parts of evaluation the gateway never sees: other operators, expression kinds and types. */
  datatype Interpretation = Interpretation(
    otherOp: (string, Value, Value) -> Value,
    unsupported: (string, Row) -> Value,
    foreign: string -> Value,
    compareForeign: (Operator, Value, Value) -> Value
  )

  function Rank(v: Value): int
    requires v.IntValue? || v.BoolValue?
  {
    match v
    case IntValue(i) => i
    case BoolValue(b) => if b then 1 else 0
  }

  function CompareValues(op: Operator, a: Value, b: Value, interp: Interpretation): Value
    requires op.IsComparison()
  {
    if a.NullValue? || b.NullValue? then NullValue
    else if (a.IntValue? && b.IntValue?) || (a.BoolValue? && b.BoolValue?) then
      var x, y := Rank(a), Rank(b);
      BoolValue(match op
                case Eq => x == y
                case NotEq => x != y
                case Lt => x < y
                case LtEq => x <= y
                case Gt => x > y
                case GtEq => x >= y)
    else interp.compareForeign(op, a, b)
  }

  const TRUE := BoolValue(true)
  const FALSE := BoolValue(false)

  function AndValues(a: Value, b: Value): Value {
    if a == FALSE || b == FALSE then FALSE else if a == TRUE && b == TRUE then TRUE else NullValue
  }

  function OrValues(a: Value, b: Value): Value {
    if a == TRUE || b == TRUE then TRUE else if a == FALSE && b == FALSE then FALSE else NullValue
  }

  function NotValue(a: Value): Value {
    if a.BoolValue? then BoolValue(!a.b) else NullValue
  }

  function Eval(e: Expr, row: Row, interp: Interpretation): Value {
    match e
    case Binary(left, op, right) =>
      var a, b := Eval(left, row, interp), Eval(right, row, interp);
      if op.And? then AndValues(a, b)
      else if op.Or? then OrValues(a, b)
      else if op.OtherOp? then interp.otherOp(op.name, a, b)
      else CompareValues(op, a, b, interp)
    case Column(_, name) => if name in row then row[name] else NullValue
    case Literal(scalar) =>
      (match scalar
       case Int(i) => IntValue(i)
       case Bool(b) => BoolValue(b)
       case Null => NullValue
       case Foreign(text) => interp.foreign(text))
    case Not(inner) => NotValue(Eval(inner, row, interp))
    case Unsupported(kind) => interp.unsupported(kind, row)
  }

  /** What the connectives mean of values that are true, false or null, and that NOT exchanges them. */
  lemma ThreeValued(a: Value, b: Value)
    requires (a.BoolValue? || a.NullValue?) && (b.BoolValue? || b.NullValue?)
    ensures AndValues(a, b) == TRUE <==> a == TRUE && b == TRUE
    ensures AndValues(a, b) == FALSE <==> a == FALSE || b == FALSE
    ensures OrValues(a, b) == TRUE <==> a == TRUE || b == TRUE
    ensures OrValues(a, b) == FALSE <==> a == FALSE && b == FALSE
    ensures NotValue(a) == TRUE <==> a == FALSE
    ensures NotValue(a) == FALSE <==> a == TRUE
    ensures NotValue(AndValues(a, b)) == OrValues(NotValue(a), NotValue(b))
    ensures NotValue(OrValues(a, b)) == AndValues(NotValue(a), NotValue(b))
  {
  }

  /** A row survives WHERE only if the condition is true, not merely not false. */
  function Keeps(filters: seq<Expr>, interp: Interpretation): Row -> bool {
    (row: Row) => forall f :: f in filters ==> Eval(f, row, interp) == TRUE
  }

  function Satisfies(condition: Option<Expr>, interp: Interpretation): Row -> bool {
    (row: Row) => condition.Some? ==> Eval(condition.value, row, interp) == TRUE
  }

  function Limited(limit: Option<nat>, rows: seq<Row>): seq<Row> {
    if limit.Some? then Take(limit.value, rows) else rows
  }

  /** The tables an executor has mounted, under their bare names: a name is mounted at most once
      (crates/elan-executor/src/context.rs:32-49). */
  type Mounts = map<string, seq<Row>>

  /** The executor: read the statement or reject it, look up its table, filter, then limit. */
  function Execute(text: string, mounts: Mounts, interp: Interpretation): Option<seq<Row>> {
    match ReadStatement(text)
    case None => None
    case Some(s) =>
      if s.table !in mounts then None
      else Some(Limited(s.limit, Filter(Satisfies(s.condition, interp), mounts[s.table])))
  }

  // ----- What the executor answers -----

  /** The statement is readable: the translated filters read back as some condition. */
  predicate Readable(filters: seq<Expr>) {
    Pushed(filters) == [] || RereadConjunction(Pushed(filters)).Some?
  }

  /** The condition the executor applies. */
  function RemoteCondition(filters: seq<Expr>): Option<Expr> {
    if Pushed(filters) == [] then None else RereadConjunction(Pushed(filters))
  }

  /** For every list of printable filters: the executor answers exactly when the statement is
      readable and its table is mounted, and then with the rows of that table on which the condition
      it read is true, in order, up to the limit. */
  lemma ExecutorAnswer(
    table: string, filters: seq<Expr>, limit: Option<nat>, mounts: Mounts, interp: Interpretation
  )
    requires '"' !in table && AllPrintable(Pushed(filters))
    ensures Execute(ScanSql(table, filters, limit), mounts, interp)
            == if Readable(filters) && table in mounts
               then Some(Limited(limit, Filter(Satisfies(RemoteCondition(filters), interp), mounts[table])))
               else None
  {
    StatementReadsBack(table, filters, limit);
  }

  /** No comparison has a NOT as its right operand. */
  predicate NoNotOnTheRight(e: Expr) {
    match e
    case Binary(left, op, right) =>
      NoNotOnTheRight(left) && NoNotOnTheRight(right) && (op.IsComparison() ==> !right.Not?)
    case Not(inner) => NoNotOnTheRight(inner)
    case _ => true
  }

  lemma {:induction false} RereadSome(e: Expr)
    ensures Reread(e).Some? <==> NoNotOnTheRight(e)
  {
    match e
    case Binary(left, op, right) =>
      RereadSome(left);
      RereadSome(right);
      if left.Not? {
        RereadSome(left.inner);
      }
    case Not(inner) => RereadSome(inner);
    case _ =>
  }

  lemma {:induction false} RereadAllSome(acc: Expr, filters: seq<Expr>)
    ensures RereadAll(acc, filters).Some? <==> forall f :: f in filters ==> NoNotOnTheRight(f)
    decreases |filters|
  {
    if filters != [] {
      RereadSome(filters[0]);
      if Reread(filters[0]).Some? {
        RereadAllSome(Binary(acc, And, Reread(filters[0]).value), filters[1..]);
      }
      assert forall f :: f in filters <==> f == filters[0] || f in filters[1..];
    }
  }

  /** Which statements an executor rejects as unreadable: exactly those in which some translated
      filter has, anywhere in it, a comparison with a NOT as its right operand. */
  lemma ReadableIff(filters: seq<Expr>)
    ensures Readable(filters) <==> forall f :: f in filters && Supported(f) ==> NoNotOnTheRight(f)
  {
    var pushed := Pushed(filters);
    if pushed != [] {
      RereadSome(pushed[0]);
      if Reread(pushed[0]).Some? {
        RereadAllSome(Reread(pushed[0]).value, pushed[1..]);
      }
      assert forall f :: f in pushed <==> f == pushed[0] || f in pushed[1..];
    }
  }

  // ----- Re-filtering -----

  /** Re-applying the filters to what the executor sent gives the rows that filtering the table gives. */
  ghost predicate RefilterCorrect(table: string, filters: seq<Expr>, mounts: Mounts, interp: Interpretation)
    requires table in mounts
  {
    var remote := Execute(ScanSql(table, filters, None), mounts, interp);
    remote.Some? && Filter(Keeps(filters, interp), remote.value) == Filter(Keeps(filters, interp), mounts[table])
  }

  /** The row satisfies every filter but not the condition the executor read. */
  ghost predicate Lost(filters: seq<Expr>, row: Row, interp: Interpretation) {
    Keeps(filters, interp)(row) && !Satisfies(RemoteCondition(filters), interp)(row)
  }

  lemma RefilterIff<T>(p: T -> bool, q: T -> bool, xs: seq<T>)
    ensures Filter(p, Filter(q, xs)) == Filter(p, xs) <==> forall x :: x in xs && p(x) ==> q(x)
  {
    if forall x :: x in xs && p(x) ==> q(x) {
      FilterFilter(p, q, p, xs);
    } else {
      var x :| x in xs && p(x) && !q(x);
      assert x in Filter(p, xs) && x !in Filter(p, Filter(q, xs));
    }
  }

  /** The Inexact contract, exactly, for every list of printable filters and every table: local
      re-filtering repairs pushdown if and only if the statement is readable and the table holds no
      lost row. */
  lemma RefilterExact(table: string, filters: seq<Expr>, mounts: Mounts, interp: Interpretation)
    requires '"' !in table && AllPrintable(Pushed(filters)) && table in mounts
    ensures RefilterCorrect(table, filters, mounts, interp) <==>
            Readable(filters) && forall row :: row in mounts[table] ==> !Lost(filters, row, interp)
  {
    ExecutorAnswer(table, filters, None, mounts, interp);
    RefilterIff(Keeps(filters, interp), Satisfies(RemoteCondition(filters), interp), mounts[table]);
  }

  /** ... and it does so on every table exactly when the filters imply the condition that was read. */
  lemma RefilterExactOnAllTables(table: string, filters: seq<Expr>, interp: Interpretation)
    requires '"' !in table && AllPrintable(Pushed(filters))
    ensures (forall mounts: Mounts :: table in mounts ==> RefilterCorrect(table, filters, mounts, interp)) <==>
            Readable(filters) && forall row :: !Lost(filters, row, interp)
  {
    if Readable(filters) && forall row :: !Lost(filters, row, interp) {
      forall mounts: Mounts | table in mounts
        ensures RefilterCorrect(table, filters, mounts, interp)
      {
        RefilterExact(table, filters, mounts, interp);
      }
    } else if Readable(filters) {
      var row :| Lost(filters, row, interp);
      var mounts: Mounts := map[table := [row]];
      RefilterExact(table, filters, mounts, interp);
      assert row in mounts[table];
    } else {
      RefilterExact(table, filters, map[table := []], interp);
    }
  }

  // ----- One filter at a time -----

  /** The filter's own text is read as a condition that is true of the row. */
  ghost predicate ReadTrue(e: Expr, row: Row, interp: Interpretation) {
    Reread(e).Some? && Eval(Reread(e).value, row, interp) == TRUE
  }

  lemma {:induction false} RereadAllTrue(acc: Expr, filters: seq<Expr>, row: Row, interp: Interpretation)
    requires forall f :: f in filters ==> Reread(f).Some?
    ensures var r := RereadAll(acc, filters);
            r.Some? && (Eval(r.value, row, interp) == TRUE <==>
                        Eval(acc, row, interp) == TRUE && forall f :: f in filters ==> ReadTrue(f, row, interp))
    decreases |filters|
  {
    if filters != [] {
      var first := Reread(filters[0]).value;
      RereadAllTrue(Binary(acc, And, first), filters[1..], row, interp);
      assert Eval(Binary(acc, And, first), row, interp)
          == AndValues(Eval(acc, row, interp), Eval(first, row, interp));
      hide Eval, Reread;
      assert forall f :: f in filters <==> f == filters[0] || f in filters[1..];
      assert ReadTrue(filters[0], row, interp) <==> Eval(first, row, interp) == TRUE;
    }
  }

  /** The condition read is true of a row exactly when each filter's own text is read as true. */
  lemma ConditionTrue(filters: seq<Expr>, row: Row, interp: Interpretation)
    requires Readable(filters)
    ensures Satisfies(RemoteCondition(filters), interp)(row) <==>
            forall f :: f in Pushed(filters) ==> ReadTrue(f, row, interp)
  {
    var pushed := Pushed(filters);
    ReadableIff(filters);
    if pushed != [] {
      forall f | f in pushed
        ensures Reread(f).Some?
      {
        RereadSome(f);
      }
      RereadAllTrue(Reread(pushed[0]).value, pushed[1..], row, interp);
      hide Eval, Reread;
      assert forall f :: f in pushed <==> f == pushed[0] || f in pushed[1..];
      assert ReadTrue(pushed[0], row, interp) <==> Eval(Reread(pushed[0]).value, row, interp) == TRUE;
    }
  }

  /** The statement is readable, and of these rows each filter's text says what the filter says. */
  ghost predicate ReadExactly(filters: seq<Expr>, rows: seq<Row>, interp: Interpretation) {
    && AllPrintable(Pushed(filters)) && Readable(filters)
    && forall f, row :: f in Pushed(filters) && row in rows ==>
         (ReadTrue(f, row, interp) <==> Eval(f, row, interp) == TRUE)
  }

  function MountedRows(table: string, mounts: Mounts): seq<Row> {
    if table in mounts then mounts[table] else []
  }

  /** When the translated filters are read exactly, the executor returns exactly the rows of the named
      table on which every one of them is true, in order, up to the limit; filters that do not
      translate widen the result and nothing else does. */
  lemma RemoteRowsExact(
    table: string, filters: seq<Expr>, limit: Option<nat>, mounts: Mounts, interp: Interpretation
  )
    requires '"' !in table && ReadExactly(filters, MountedRows(table, mounts), interp)
    ensures Execute(ScanSql(table, filters, limit), mounts, interp)
            == if table in mounts then Some(Limited(limit, Filter(Keeps(Pushed(filters), interp), mounts[table])))
               else None
  {
    ExecutorAnswer(table, filters, limit, mounts, interp);
    if table in mounts {
      forall row | row in mounts[table]
        ensures Satisfies(RemoteCondition(filters), interp)(row) == Keeps(Pushed(filters), interp)(row)
      {
        ConditionTrue(filters, row, interp);
      }
      FilterCongruence(Satisfies(RemoteCondition(filters), interp), Keeps(Pushed(filters), interp), mounts[table]);
    }
  }

  /** Re-filtering repairs the pushdown of these filters on a table of these rows (RefilterExact). */
  ghost predicate Repairable(filters: seq<Expr>, rows: seq<Row>, interp: Interpretation) {
    AllPrintable(Pushed(filters)) && Readable(filters) && forall row :: row in rows ==> !Lost(filters, row, interp)
  }

  /** ... which it does if of each row that satisfies all filters each filter's text is read as true. */
  lemma RepairableIff(filters: seq<Expr>, rows: seq<Row>, interp: Interpretation)
    ensures Repairable(filters, rows, interp) <==>
            && AllPrintable(Pushed(filters)) && Readable(filters)
            && forall f, row :: f in Pushed(filters) && row in rows && Keeps(filters, interp)(row) ==>
                 ReadTrue(f, row, interp)
  {
    if Readable(filters) {
      forall row
        ensures Lost(filters, row, interp) <==>
                Keeps(filters, interp)(row) && exists f :: f in Pushed(filters) && !ReadTrue(f, row, interp)
      {
        ConditionTrue(filters, row, interp);
      }
    }
  }

  lemma ExactIsRepairable(filters: seq<Expr>, rows: seq<Row>, interp: Interpretation)
    requires ReadExactly(filters, rows, interp)
    ensures Repairable(filters, rows, interp)
  {
    RepairableIff(filters, rows, interp);
  }

  // ----- Faithful filters -----

  ghost predicate PushableFilters(filters: seq<Expr>) {
    forall f :: f in filters && Supported(f) ==> Printable(f) && Faithful(f)
  }

  lemma {:induction false} UnqualifiedSameValue(e: Expr, row: Row, interp: Interpretation)
    ensures Eval(Unqualified(e), row, interp) == Eval(e, row, interp)
  {
    match e
    case Binary(left, op, right) =>
      UnqualifiedSameValue(left, row, interp);
      UnqualifiedSameValue(right, row, interp);
    case Not(inner) => UnqualifiedSameValue(inner, row, interp);
    case _ =>
  }

  /** Filters in which no comparison has a NOT as a direct operand are read exactly, of all rows. */
  lemma FaithfulIsExact(filters: seq<Expr>, rows: seq<Row>, interp: Interpretation)
    requires PushableFilters(filters)
    ensures ReadExactly(filters, rows, interp)
  {
    forall f | f in Pushed(filters)
      ensures Reread(f) == Some(Unqualified(f)) && NoNotOnTheRight(f)
    {
      RereadFaithful(f);
      RereadSome(f);
    }
    ReadableIff(filters);
    forall f, row | f in Pushed(filters) && row in rows
      ensures ReadTrue(f, row, interp) <==> Eval(f, row, interp) == TRUE
    {
      UnqualifiedSameValue(f, row, interp);
    }
  }

  /** The Inexact contract for faithful filters: re-applying all of them to what the executor sent
      gives exactly the rows, in order, that filtering the table itself would give. */
  lemma PushdownSound(table: string, filters: seq<Expr>, mounts: Mounts, interp: Interpretation)
    requires '"' !in table && PushableFilters(filters) && table in mounts
    ensures RefilterCorrect(table, filters, mounts, interp)
  {
    FaithfulIsExact(filters, mounts[table], interp);
    ExactIsRepairable(filters, mounts[table], interp);
    RefilterExact(table, filters, mounts, interp);
  }

  // ----- Limits -----

  /** The first k rows are right when the executor is asked for at most `pushed` rows. */
  ghost predicate LimitCorrect(
    table: string, filters: seq<Expr>, k: nat, pushed: nat, mounts: Mounts, interp: Interpretation
  )
    requires table in mounts
  {
    var remote := Execute(ScanSql(table, filters, Some(pushed)), mounts, interp);
    && remote.Some?
    && Take(k, Filter(Keeps(filters, interp), remote.value)) == Take(k, Filter(Keeps(filters, interp), mounts[table]))
  }

  lemma LimitedThenFiltered(filters: seq<Expr>, pushed: nat, k: nat, rows: seq<Row>, interp: Interpretation)
    requires k <= pushed && forall f :: f in filters ==> Supported(f)
    ensures var keeps := Keeps(filters, interp);
            Take(k, Filter(keeps, Limited(Some(pushed), Filter(Keeps(Pushed(filters), interp), rows))))
            == Take(k, Filter(keeps, rows))
  {
    hide Keeps, Supported;
    FilterAll(Supported, filters);
    var kept := Filter(Keeps(filters, interp), rows);
    FilterAll(Keeps(filters, interp), Take(pushed, kept));
    hide Filter;
    assert Take(k, Take(pushed, kept)) == Take(k, kept);
  }

  /** With a limit at least as large as what is needed, the first k rows are right whenever every
      filter translates and is read exactly. */
  lemma LimitSound(table: string, filters: seq<Expr>, k: nat, pushed: nat, mounts: Mounts, interp: Interpretation)
    requires '"' !in table && table in mounts && ReadExactly(filters, mounts[table], interp) && k <= pushed
    requires forall f :: f in filters ==> Supported(f)
    ensures LimitCorrect(table, filters, k, pushed, mounts, interp)
  {
    RemoteRowsExact(table, filters, Some(pushed), mounts, interp);
    hide Execute, ScanSql, ReadExactly, Keeps, Limited;
    LimitedThenFiltered(filters, pushed, k, mounts[table], interp);
  }

  function Repeat(row: Row, k: nat): seq<Row> {
    seq(k, _ => row)
  }

  /** Cutting off after k rows that satisfy q, then filtering by p, gives the first k rows of p. */
  ghost predicate CutCorrect(p: Row -> bool, q: Row -> bool, k: nat, rows: seq<Row>) {
    Take(k, Filter(p, Take(k, Filter(q, rows)))) == Take(k, Filter(p, rows))
  }

  lemma CutLosesMissedRow(p: Row -> bool, q: Row -> bool, k: nat, good: Row)
    requires k > 0 && p(good) && !q(good)
    ensures !CutCorrect(p, q, k, [good])
  {
    FilterNone(q, [good]);
    FilterAll(p, [good]);
    assert Take(k, Filter(p, [good])) == [good];
  }

  lemma CutLosesCrowdedRow(p: Row -> bool, q: Row -> bool, k: nat, good: Row, bad: Row)
    requires k > 0 && p(good) && q(good) && q(bad) && !p(bad)
    ensures !CutCorrect(p, q, k, Repeat(bad, k) + [good])
  {
    var rows := Repeat(bad, k) + [good];
    FilterAll(q, rows);
    assert Take(k, rows) == Repeat(bad, k);
    hide Filter, Take;
    FilterNone(p, Repeat(bad, k));
    FilterConcat(p, Repeat(bad, k), [good]);
    FilterAll(p, [good]);
    assert Take(k, Filter(p, rows)) == [good];
  }

  lemma CutExact(p: Row -> bool, q: Row -> bool, k: nat)
    requires k > 0
    ensures (forall rows :: CutCorrect(p, q, k, rows)) <==>
            (forall row :: !p(row)) || (forall row :: p(row) <==> q(row))
  {
    if good :| p(good) && !q(good) {
      CutLosesMissedRow(p, q, k, good);
    } else if good, bad :| p(good) && q(bad) && !p(bad) {
      CutLosesCrowdedRow(p, q, k, good, bad);
    } else {
      forall rows
        ensures CutCorrect(p, q, k, rows)
      {
        if forall row :: !p(row) {
          FilterNone(p, rows);
          FilterNone(p, Take(k, Filter(q, rows)));
        } else {
          FilterCongruence(q, p, rows);
          FilterAll(p, Take(k, Filter(p, rows)));
        }
      }
    }
  }

  lemma LimitIsCut(table: string, filters: seq<Expr>, k: nat, mounts: Mounts, interp: Interpretation)
    requires '"' !in table && AllPrintable(Pushed(filters)) && table in mounts
    ensures LimitCorrect(table, filters, k, k, mounts, interp) <==>
            && Readable(filters)
            && CutCorrect(Keeps(filters, interp), Satisfies(RemoteCondition(filters), interp), k, mounts[table])
  {
    ExecutorAnswer(table, filters, Some(k), mounts, interp);
  }

  /** Pushing a positive limit to the executor is right on every table exactly when the statement is
      readable and either no row at all qualifies, or the condition the executor reads is equivalent
      to the filters. */
  lemma LimitExact(table: string, filters: seq<Expr>, k: nat, interp: Interpretation)
    requires '"' !in table && AllPrintable(Pushed(filters)) && k > 0
    ensures (forall mounts: Mounts :: table in mounts ==> LimitCorrect(table, filters, k, k, mounts, interp)) <==>
            && Readable(filters)
            && (|| (forall row :: !Keeps(filters, interp)(row))
                || (forall row :: Keeps(filters, interp)(row) <==> Satisfies(RemoteCondition(filters), interp)(row)))
  {
    var p, q := Keeps(filters, interp), Satisfies(RemoteCondition(filters), interp);
    CutExact(p, q, k);
    if Readable(filters) && forall rows :: CutCorrect(p, q, k, rows) {
      forall mounts: Mounts | table in mounts
        ensures LimitCorrect(table, filters, k, k, mounts, interp)
      {
        LimitIsCut(table, filters, k, mounts, interp);
      }
    } else if Readable(filters) {
      var rows :| !CutCorrect(p, q, k, rows);
      LimitIsCut(table, filters, k, map[table := rows], interp);
    } else {
      LimitIsCut(table, filters, k, map[table := []], interp);
    }
  }

  /** A NOT on the right of a comparison, anywhere in a translated filter, makes the executor reject
      the whole statement. */
  lemma NotOnTheRightIsRejected(
    table: string, filters: seq<Expr>, f: Expr, limit: Option<nat>, mounts: Mounts, interp: Interpretation
  )
    requires '"' !in table && AllPrintable(Pushed(filters)) && f in filters && Supported(f) && !NoNotOnTheRight(f)
    ensures Execute(ScanSql(table, filters, limit), mounts, interp).None?
  {
    ReadableIff(filters);
    ExecutorAnswer(table, filters, limit, mounts, interp);
  }
}
