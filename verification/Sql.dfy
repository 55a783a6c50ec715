/** Filter expressions and their SQL text (crates/elan-query/src/planner/remote_scan.rs). */
module SqlPrinter {
  import opened Wrappers
  import opened Decimal

  /** A literal; Foreign stands for every scalar whose display form is not modelled. */
  datatype Scalar = Int(i: int) | Bool(b: bool) | Null | Foreign(text: string)

  datatype Operator = Eq | NotEq | Lt | LtEq | Gt | GtEq | And | Or | OtherOp(name: string) {
    predicate IsComparison() { Eq? || NotEq? || Lt? || LtEq? || Gt? || GtEq? }
  }

  datatype Expr =
    | Binary(left: Expr, op: Operator, right: Expr)
    | Column(relation: Option<string>, name: string)
    | Literal(scalar: Scalar)
    | Not(inner: Expr)
    | Unsupported(kind: string)

  function Display(scalar: Scalar): string {
    match scalar
    case Int(i) => if i < 0 then "-" + Numeral(-i) else Numeral(i)
    case Bool(b) => if b then "true" else "false"
    case Null => "NULL"
    case Foreign(text) => text
  }

  function OperatorText(op: Operator): Option<string> {
    match op
    case Eq => Some("=")
    case NotEq => Some("!=")
    case Lt => Some("<")
    case LtEq => Some("<=")
    case Gt => Some(">")
    case GtEq => Some(">=")
    case And => Some("AND")
    case Or => Some("OR")
    case OtherOp(_) => None
  }

  function BinarySql(left: string, op: string, right: string): string {
    "(" + left + " " + op + " " + right + ")"
  }

  function NotSql(inner: string): string {
    "NOT (" + inner + ")"
  }

  function ExprToSql(expr: Expr): Option<string> {
    match expr
    case Binary(left, op, right) =>
      var l, r, o := ExprToSql(left), ExprToSql(right), OperatorText(op);
      if l.None? || r.None? || o.None? then None
      else Some(BinarySql(l.value, o.value, r.value))
    case Column(_, name) => Some("\"" + name + "\"")
    case Literal(scalar) => Some(Display(scalar))
    case Not(inner) =>
      var i := ExprToSql(inner);
      if i.None? then None else Some(NotSql(i.value))
    case Unsupported(_) => None
  }

  function Translate(filters: seq<Expr>): seq<string> {
    if filters == [] then []
    else
      var rest := Translate(filters[1..]);
      match ExprToSql(filters[0])
      case None => rest
      case Some(sql) => [sql] + rest
  }

  function JoinAnd(parts: seq<string>): string {
    if parts == [] then ""
    else if |parts| == 1 then parts[0]
    else parts[0] + " AND " + JoinAnd(parts[1..])
  }

  function WhereClause(parts: seq<string>): string {
    if parts == [] then "" else " WHERE " + JoinAnd(parts)
  }

  function LimitClause(limit: Option<nat>): string {
    match limit
    case None => ""
    case Some(n) => " LIMIT " + Numeral(n)
  }

  function ScanSql(table: string, filters: seq<Expr>, limit: Option<nat>): string {
    "SELECT * FROM \"" + table + "\"" + WhereClause(Translate(filters)) + LimitClause(limit)
  }

  /** The text of each operator between the texts of its operands. */
  lemma PrintedOperator(left: Expr, op: Operator, right: Expr, l: string, r: string)
    requires ExprToSql(left) == Some(l) && ExprToSql(right) == Some(r) && !op.OtherOp?
    ensures ExprToSql(Binary(left, op, right))
            == Some("(" + l + (match op
                               case Eq => " = " case NotEq => " != " case Lt => " < " case LtEq => " <= "
                               case Gt => " > " case GtEq => " >= " case And => " AND " case Or => " OR ") + r + ")")
    ensures ExprToSql(Not(left)) == Some("NOT (" + l + ")")
  {
    var text := OperatorText(op).value;
    hide BinarySql;
    assert ExprToSql(Binary(left, op, right)) == Some(BinarySql(l, text, r));
    assert ExprToSql(Not(left)) == Some(NotSql(l));
    hide ExprToSql, OperatorText;
    SpacedOperator(op);
    Spaced(l, text, r);
  }

  lemma SpacedOperator(op: Operator)
    requires !op.OtherOp?
    ensures " " + OperatorText(op).value + " "
            == match op
               case Eq => " = " case NotEq => " != " case Lt => " < " case LtEq => " <= "
               case Gt => " > " case GtEq => " >= " case And => " AND " case Or => " OR "
  {
  }

  lemma Spaced(l: string, op: string, r: string)
    ensures BinarySql(l, op, r) == "(" + l + (" " + op + " ") + r + ")"
  {
  }

  lemma PrintedAtoms(relation: Option<string>, name: string, i: int)
    ensures ExprToSql(Column(relation, name)) == Some("\"" + name + "\"")
    ensures ExprToSql(Literal(Bool(true))) == Some("true") && ExprToSql(Literal(Bool(false))) == Some("false")
    ensures ExprToSql(Literal(Null)) == Some("NULL")
    ensures ExprToSql(Literal(Int(i))) == Some(if i < 0 then "-" + Numeral(-i) else Numeral(i))
  {
  }

  /** The text of a whole statement: filters that do not translate leave no trace, the others are joined
      in order. */
  lemma PrintedStatement(table: string, f: Expr, g: Expr, dropped: Expr, limit: nat)
    requires ExprToSql(f).Some? && ExprToSql(g).Some? && ExprToSql(dropped).None?
    ensures ScanSql(table, [], None) == "SELECT * FROM \"" + table + "\""
    ensures ScanSql(table, [dropped], None) == "SELECT * FROM \"" + table + "\""
    ensures ScanSql(table, [f, dropped, g], Some(limit))
            == "SELECT * FROM \"" + table + "\" WHERE " + ExprToSql(f).value + " AND " + ExprToSql(g).value
               + " LIMIT " + Numeral(limit)
  {
    var a, b := ExprToSql(f).value, ExprToSql(g).value;
    assert [dropped][1..] == [] && Translate([dropped]) == [];
    assert [g][1..] == [] && Translate([g]) == [b];
    assert [dropped, g][1..] == [g] && Translate([dropped, g]) == [b];
    assert [f, dropped, g][1..] == [dropped, g] && Translate([f, dropped, g]) == [a] + [b];
    assert [a] + [b] == [a, b];
    assert [a, b][1..] == [b];
    assert JoinAnd([a, b]) == a + " AND " + b;
    hide ExprToSql, Numeral;
    StatementText(table, a, b, Numeral(limit));
  }

  lemma StatementText(table: string, a: string, b: string, n: string)
    ensures "SELECT * FROM \"" + table + "\"" + (" WHERE " + (a + " AND " + b)) + (" LIMIT " + n)
            == "SELECT * FROM \"" + table + "\" WHERE " + a + " AND " + b + " LIMIT " + n
  {
  }

  lemma {:induction false} TranslateSnoc(filters: seq<Expr>, f: Expr)
    ensures Translate(filters + [f]) ==
            Translate(filters) + (match ExprToSql(f) case None => [] case Some(sql) => [sql])
  {
    if filters == [] {
      assert filters + [f] == [f];
      assert [f][1..] == [];
    } else {
      assert (filters + [f])[1..] == filters[1..] + [f];
      TranslateSnoc(filters[1..], f);
    }
  }

  lemma {:induction false} JoinAndSnoc(parts: seq<string>, part: string)
    requires parts != []
    ensures JoinAnd(parts + [part]) == JoinAnd(parts) + " AND " + part
  {
    assert (parts + [part])[1..] == parts[1..] + [part];
    if |parts| == 1 {
      assert parts[1..] + [part] == [part];
    } else {
      JoinAndSnoc(parts[1..], part);
    }
  }

  method BuildSql(table: string, filters: seq<Expr>, limit: Option<nat>) returns (sql: string)
    ensures sql == ScanSql(table, filters, limit)
  {
    sql := "SELECT * FROM \"" + table + "\"";
    if filters != [] {
      var parts: seq<string> := [];
      for i := 0 to |filters|
        invariant parts == Translate(filters[..i])
      {
        TranslateSnoc(filters[..i], filters[i]);
        assert filters[..i + 1] == filters[..i] + [filters[i]];
        match ExprToSql(filters[i]) {
          case Some(text) => parts := parts + [text];
          case None =>
        }
      }
      assert filters[..|filters|] == filters;
      if parts != [] {
        var joined := parts[0];
        for i := 1 to |parts|
          invariant joined == JoinAnd(parts[..i])
        {
          JoinAndSnoc(parts[..i], parts[i]);
          assert parts[..i + 1] == parts[..i] + [parts[i]];
          joined := joined + " AND " + parts[i];
        }
        assert parts[..|parts|] == parts;
        sql := sql + " WHERE " + joined;
      }
    }
    if limit.Some? {
      sql := sql + " LIMIT " + Numeral(limit.value);
    }
  }
}

/** How an SQL processor reads such a statement back: a lexer, and the precedence grammar of search
    conditions (section 8.12 of ISO/IEC 9075:1992): OR below AND below NOT below comparison, whose
    operands are primaries. */
module SqlReader {
  import opened Wrappers
  import opened Decimal
  import opened SqlPrinter

  datatype Token =
    | LParen
    | RParen
    | Star
    | Ident(name: string)
    | Compare(op: Operator)
    | Word(text: string)
    | Illegal(c: char)

  predicate IsWordChar(c: char) {
    'a' <= c <= 'z' || 'A' <= c <= 'Z' || IsDigit(c) || c == '_' || c == '.' || c == '-' || c == '+'
  }

  function WordLength(s: string): (n: nat)
    ensures n <= |s|
  {
    if s == "" || !IsWordChar(s[0]) then 0 else 1 + WordLength(s[1..])
  }

  function QuoteIndex(s: string): (n: nat)
    ensures n <= |s|
  {
    if s == "" || s[0] == '"' then 0 else 1 + QuoteIndex(s[1..])
  }

  /** The token at the start of a text, if it is not a space, and how many characters it takes. */
  function Next(s: string): (r: (seq<Token>, nat))
    requires s != ""
    ensures 0 < r.1 <= |s|
  {
    if s[0] == ' ' then ([], 1)
    else if s[0] == '(' then ([LParen], 1)
    else if s[0] == ')' then ([RParen], 1)
    else if s[0] == '*' then ([Star], 1)
    else if s[0] in {'=', '!', '<', '>'} then NextSymbol(s)
    else if s[0] == '"' && QuoteIndex(s[1..]) < |s| - 1 then
      var n := QuoteIndex(s[1..]);
      ([Ident(s[1..][..n])], n + 2)
    else if IsWordChar(s[0]) then ([Word(s[..WordLength(s)])], WordLength(s))
    else ([Illegal(s[0])], 1)
  }

  function NextSymbol(s: string): (r: (seq<Token>, nat))
    requires s != "" && s[0] in {'=', '!', '<', '>'}
    ensures 0 < r.1 <= |s|
  {
    if s[0] == '=' then ([Compare(Eq)], 1)
    else if |s| > 1 && s[1] == '=' then
      ([Compare(if s[0] == '!' then NotEq else if s[0] == '<' then LtEq else GtEq)], 2)
    else if s[0] == '!' then ([Illegal('!')], 1)
    else ([Compare(if s[0] == '<' then Lt else Gt)], 1)
  }

  function Lex(s: string): seq<Token>
    decreases |s|
  {
    if s == "" then [] else Next(s).0 + Lex(s[Next(s).1..])
  }

  function ReadScalar(word: string): Option<Scalar> {
    if word == "true" then Some(Bool(true))
    else if word == "false" then Some(Bool(false))
    else if word == "NULL" then Some(Null)
    else if word != "" && AllDigits(word) then Some(Int(ValueOf(word)))
    else if |word| > 1 && word[0] == '-' && AllDigits(word[1..]) then Some(Int(0 - ValueOf(word[1..])))
    else None
  }

  predicate StartsWith(ts: seq<Token>, t: Token) { ts != [] && ts[0] == t }

  const NOT := Word("NOT")
  const AND := Word("AND")
  const OR := Word("OR")
  const WHERE := Word("WHERE")
  const LIMIT := Word("LIMIT")

  function ParsePrimary(ts: seq<Token>): (r: Option<(Expr, seq<Token>)>)
    ensures r.Some? ==> |r.value.1| < |ts|
    decreases |ts|, 0
  {
    if ts == [] then None
    else
      match ts[0]
      case Ident(name) => Some((Column(None, name), ts[1..]))
      case Word(text) =>
        (match ReadScalar(text)
         case None => None
         case Some(scalar) => Some((Literal(scalar), ts[1..])))
      case LParen =>
        (match ParseOr(ts[1..])
         case None => None
         case Some((e, rest)) => if StartsWith(rest, RParen) then Some((e, rest[1..])) else None)
      case _ => None
  }

  function ParseComparison(ts: seq<Token>): (r: Option<(Expr, seq<Token>)>)
    ensures r.Some? ==> |r.value.1| < |ts|
    decreases |ts|, 1
  {
    match ParsePrimary(ts)
    case None => None
    case Some((left, rest)) =>
      if rest != [] && rest[0].Compare? then
        match ParsePrimary(rest[1..])
        case None => None
        case Some((right, rest')) => Some((Binary(left, rest[0].op, right), rest'))
      else Some((left, rest))
  }

  function ParseNot(ts: seq<Token>): (r: Option<(Expr, seq<Token>)>)
    ensures r.Some? ==> |r.value.1| < |ts|
    decreases |ts|, 2
  {
    if StartsWith(ts, NOT) then
      match ParseNot(ts[1..])
      case None => None
      case Some((e, rest)) => Some((Not(e), rest))
    else ParseComparison(ts)
  }

  function AndTail(left: Expr, ts: seq<Token>): (r: Option<(Expr, seq<Token>)>)
    ensures r.Some? ==> |r.value.1| <= |ts|
    decreases |ts|, 3
  {
    if StartsWith(ts, AND) then
      match ParseNot(ts[1..])
      case None => None
      case Some((right, rest)) => AndTail(Binary(left, And, right), rest)
    else Some((left, ts))
  }

  function ParseAnd(ts: seq<Token>): (r: Option<(Expr, seq<Token>)>)
    ensures r.Some? ==> |r.value.1| < |ts|
    decreases |ts|, 4
  {
    match ParseNot(ts)
    case None => None
    case Some((left, rest)) => AndTail(left, rest)
  }

  function OrTail(left: Expr, ts: seq<Token>): (r: Option<(Expr, seq<Token>)>)
    ensures r.Some? ==> |r.value.1| <= |ts|
    decreases |ts|, 5
  {
    if StartsWith(ts, OR) then
      match ParseAnd(ts[1..])
      case None => None
      case Some((right, rest)) => OrTail(Binary(left, Or, right), rest)
    else Some((left, ts))
  }

  function ParseOr(ts: seq<Token>): (r: Option<(Expr, seq<Token>)>)
    ensures r.Some? ==> |r.value.1| < |ts|
    decreases |ts|, 6
  {
    match ParseAnd(ts)
    case None => None
    case Some((left, rest)) => OrTail(left, rest)
  }

  /** A condition standing alone. */
  function ReadCondition(text: string): Option<Expr> {
    match ParseOr(Lex(text))
    case Some((e, rest)) => if rest == [] then Some(e) else None
    case None => None
  }

  datatype Statement = Statement(table: string, condition: Option<Expr>, limit: Option<nat>)

  function ReadLimit(table: string, condition: Option<Expr>, ts: seq<Token>): Option<Statement> {
    if ts == [] then Some(Statement(table, condition, None))
    else if |ts| == 2 && ts[0] == LIMIT && ts[1].Word? && ts[1].text != "" && AllDigits(ts[1].text) then
      Some(Statement(table, condition, Some(ValueOf(ts[1].text))))
    else None
  }

  function ReadStatement(text: string): Option<Statement> {
    var ts := Lex(text);
    if |ts| < 4 || ts[..3] != [Word("SELECT"), Star, Word("FROM")] || !ts[3].Ident? then None
    else if StartsWith(ts[4..], WHERE) then
      match ParseOr(ts[5..])
      case None => None
      case Some((e, rest)) => ReadLimit(ts[3].name, Some(e), rest)
    else ReadLimit(ts[3].name, None, ts[4..])
  }
}
