/** The printed text is uniquely readable: exactly which tree the reader gets back from every
    printed expression, and when it is the tree that was printed. */
module SqlRoundTrip {
  import opened Wrappers
  import opened Decimal
  import opened SqlPrinter
  import opened SqlReader

  /** Translated, with quote-free column names and literals of modelled display form. */
  predicate Printable(e: Expr) {
    match e
    case Binary(left, op, right) => Printable(left) && Printable(right) && !op.OtherOp?
    case Column(_, name) => '"' !in name
    case Literal(scalar) => !scalar.Foreign?
    case Not(inner) => Printable(inner)
    case Unsupported(_) => false
  }

  /** A filter is translated wholly or not at all: one unsupported node anywhere blocks it. */
  predicate Supported(e: Expr) {
    match e
    case Binary(left, op, right) => Supported(left) && Supported(right) && !op.OtherOp?
    case Not(inner) => Supported(inner)
    case Unsupported(_) => false
    case _ => true
  }

  lemma {:induction false} TranslatedWholly(e: Expr)
    ensures ExprToSql(e).Some? <==> Supported(e)
  {
    match e
    case Binary(left, op, right) =>
      TranslatedWholly(left);
      TranslatedWholly(right);
    case Not(inner) => TranslatedWholly(inner);
    case _ =>
  }

  lemma {:induction false} PrintableTranslates(e: Expr)
    requires Printable(e)
    ensures ExprToSql(e).Some?
  {
    match e
    case Binary(left, op, right) =>
      PrintableTranslates(left);
      PrintableTranslates(right);
    case Not(inner) => PrintableTranslates(inner);
    case _ =>
  }

  function Sql(e: Expr): string
    requires Printable(e)
  {
    PrintableTranslates(e);
    ExprToSql(e).value
  }

  lemma SqlOfNot(inner: Expr)
    requires Printable(inner)
    ensures Sql(Not(inner)) == NotSql(Sql(inner))
  {
    hide NotSql;
    PrintableTranslates(inner);
    assert ExprToSql(Not(inner)) == Some(NotSql(ExprToSql(inner).value));
  }

  lemma SqlOfBinary(left: Expr, op: Operator, right: Expr)
    requires Printable(left) && Printable(right) && !op.OtherOp?
    ensures Sql(Binary(left, op, right)) == BinarySql(Sql(left), OperatorText(op).value, Sql(right))
  {
    hide BinarySql, Printable;
    PrintableTranslates(left);
    PrintableTranslates(right);
    assert OperatorText(op).Some?;
    hide OperatorText;
    assert ExprToSql(Binary(left, op, right))
        == Some(BinarySql(ExprToSql(left).value, OperatorText(op).value, ExprToSql(right).value));
  }

  // ----- Lexing -----

  function OperatorToken(op: Operator): Token
    requires !op.OtherOp?
  {
    if op.And? then AND else if op.Or? then OR else Compare(op)
  }

  function Tokens(e: Expr): seq<Token>
    requires Printable(e)
  {
    match e
    case Binary(left, op, right) => [LParen] + Tokens(left) + [OperatorToken(op)] + Tokens(right) + [RParen]
    case Column(_, name) => [Ident(name)]
    case Literal(scalar) => [Word(Display(scalar))]
    case Not(inner) => [NOT, LParen] + Tokens(inner) + [RParen]
  }

  predicate Delimits(rest: string) { rest == "" || !IsWordChar(rest[0]) }

  lemma {:induction false} WordLengthOf(word: string, rest: string)
    requires (forall c :: c in word ==> IsWordChar(c)) && Delimits(rest)
    ensures WordLength(word + rest) == |word|
  {
    if word == "" {
      assert word + rest == rest;
    } else {
      assert (word + rest)[1..] == word[1..] + rest;
      WordLengthOf(word[1..], rest);
    }
  }

  /** One lexer step: a piece of text that is the next token, whatever follows it. */
  lemma LexStep(piece: string, ts: seq<Token>, rest: string)
    requires piece != "" && Next(piece + rest) == (ts, |piece|)
    ensures Lex(piece + rest) == ts + Lex(rest)
  {
    assert (piece + rest)[|piece|..] == rest;
  }

  lemma LexWord(word: string, rest: string)
    requires word != "" && (forall c :: c in word ==> IsWordChar(c)) && Delimits(rest)
    ensures Lex(word + rest) == [Word(word)] + Lex(rest)
  {
    WordLengthOf(word, rest);
    var s := word + rest;
    assert s[..|word|] == word;
    assert s[0] == word[0] && IsWordChar(word[0]);
    LexStep(word, [Word(word)], rest);
  }

  lemma {:induction false} QuoteIndexOf(name: string, rest: string)
    requires '"' !in name
    ensures QuoteIndex(name + "\"" + rest) == |name|
  {
    if name != "" {
      assert (name + "\"" + rest)[1..] == name[1..] + "\"" + rest;
      QuoteIndexOf(name[1..], rest);
    }
  }

  lemma LexIdent(name: string, rest: string)
    requires '"' !in name
    ensures Lex("\"" + name + "\"" + rest) == [Ident(name)] + Lex(rest)
  {
    var piece := "\"" + name + "\"";
    var s := piece + rest;
    assert s[1..] == name + "\"" + rest;
    QuoteIndexOf(name, rest);
    assert s[1..][..|name|] == name;
    LexStep(piece, [Ident(name)], rest);
  }

  lemma DisplayIsWord(scalar: Scalar)
    requires !scalar.Foreign?
    ensures Display(scalar) != "" && forall c :: c in Display(scalar) ==> IsWordChar(c)
  {
    if scalar.Int? {
      NumeralRoundTrip(if scalar.i < 0 then -scalar.i else scalar.i);
    }
  }

  lemma LexSpace(rest: string)
    ensures Lex(" " + rest) == Lex(rest)
  {
    LexStep(" ", [], rest);
  }

  lemma LexParens(rest: string)
    ensures Lex("(" + rest) == [LParen] + Lex(rest)
    ensures Lex(")" + rest) == [RParen] + Lex(rest)
  {
    LexStep("(", [LParen], rest);
    LexStep(")", [RParen], rest);
  }

  lemma NextOperator(op: Operator, s: string)
    requires op.IsComparison()
    requires var text := OperatorText(op).value;
             && |s| > |text| && s[0] == text[0] && s[1] == if |text| == 1 then ' ' else text[1]
    ensures Next(s) == ([Compare(op)], |OperatorText(op).value|)
  {
  }

  lemma LexOperator(op: Operator, rest: string)
    requires !op.OtherOp?
    ensures Lex(OperatorText(op).value + (" " + rest)) == [OperatorToken(op)] + Lex(rest)
  {
    var text := OperatorText(op).value;
    hide Lex;
    LexSpace(rest);
    if op.IsComparison() {
      NextOperator(op, text + (" " + rest));
      LexStep(text, [Compare(op)], " " + rest);
    } else {
      LexWord(text, " " + rest);
    }
  }

  /** The text of a negation, cut where the lexer cuts it. */
  lemma NotText(inner: string, rest: string)
    ensures NotSql(inner) + rest == "NOT" + (" " + ("(" + (inner + (")" + rest))))
  {
  }

  lemma LexNegation(inner: string, ts: seq<Token>, rest: string)
    requires Lex(inner + (")" + rest)) == ts + Lex(")" + rest)
    ensures Lex(NotSql(inner) + rest) == [NOT, LParen] + ts + [RParen] + Lex(rest)
  {
    hide Lex;
    var s1 := inner + (")" + rest);
    NotText(inner, rest);
    LexParens(rest);
    LexParens(s1);
    LexSpace("(" + s1);
    LexWord("NOT", " " + ("(" + s1));
    assert [NOT] + ([LParen] + (ts + ([RParen] + Lex(rest)))) == [NOT, LParen] + ts + [RParen] + Lex(rest);
  }

  /** The text of a binary expression, cut where the lexer cuts it. */
  lemma BinaryText(left: string, op: string, right: string, rest: string)
    ensures BinarySql(left, op, right) + rest
            == "(" + (left + (" " + (op + (" " + (right + (")" + rest))))))
  {
  }

  lemma LexBinary(left: string, lts: seq<Token>, op: string, t: Token, s1: string, rts: seq<Token>, rest: string)
    requires Lex(s1) == rts + Lex(")" + rest)
    requires Lex(op + (" " + s1)) == [t] + Lex(s1)
    requires Lex(left + (" " + (op + (" " + s1)))) == lts + Lex(" " + (op + (" " + s1)))
    ensures Lex("(" + (left + (" " + (op + (" " + s1))))) == [LParen] + lts + [t] + rts + [RParen] + Lex(rest)
  {
    hide Lex;
    var tail := op + (" " + s1);
    LexParens(rest);
    LexSpace(tail);
    LexParens(left + (" " + tail));
    assert [LParen] + (lts + ([t] + (rts + ([RParen] + Lex(rest))))) ==
           [LParen] + lts + [t] + rts + [RParen] + Lex(rest);
  }

  lemma {:induction false} LexPrinted(e: Expr, rest: string)
    requires Printable(e) && Delimits(rest)
    ensures Lex(Sql(e) + rest) == Tokens(e) + Lex(rest)
    decreases e, 1
  {
    match e
    case Column(_, name) => LexIdent(name, rest);
    case Literal(scalar) =>
      DisplayIsWord(scalar);
      LexWord(Display(scalar), rest);
    case Not(inner) => LexPrintedNot(e, rest);
    case Binary(left, op, right) => LexPrintedBinary(e, rest);
  }

  lemma {:induction false} LexPrintedNot(e: Expr, rest: string)
    requires Printable(e) && e.Not?
    ensures Lex(Sql(e) + rest) == Tokens(e) + Lex(rest)
    decreases e, 0
  {
    LexPrinted(e.inner, ")" + rest);
    LexNegation(Sql(e.inner), Tokens(e.inner), rest);
    SqlOfNot(e.inner);
  }

  lemma {:induction false} LexPrintedBinary(e: Expr, rest: string)
    requires Printable(e) && e.Binary?
    ensures Lex(Sql(e) + rest) == Tokens(e) + Lex(rest)
    decreases e, 0
  {
    var left, right, op := Sql(e.left), Sql(e.right), OperatorText(e.op).value;
    var s1 := right + (")" + rest);
    LexPrinted(e.right, ")" + rest);
    LexOperator(e.op, s1);
    LexPrinted(e.left, " " + (op + (" " + s1)));
    LexBinary(left, Tokens(e.left), op, OperatorToken(e.op), s1, Tokens(e.right), rest);
    BinaryText(left, op, right, rest);
    SqlOfBinary(e.left, e.op, e.right);
  }

  // ----- Parsing -----

  /** What the reader makes of a printed expression. NOT is printed without parentheses of its own,
      so as the left operand of a comparison it captures the whole comparison, and as the right
      operand it is a syntax error. Everything else comes back as printed, less column qualifiers. */
  function Reread(e: Expr): Option<Expr> {
    match e
    case Column(_, name) => Some(Column(None, name))
    case Not(inner) =>
      var i := Reread(inner);
      if i.None? then None else Some(Not(i.value))
    case Binary(left, op, right) =>
      if op.IsComparison() && right.Not? then None
      else
        var r := Reread(right);
        if op.IsComparison() && left.Not? then
          var l := Reread(left.inner);
          if l.None? || r.None? then None else Some(Not(Binary(l.value, op, r.value)))
        else
          var l := Reread(left);
          if l.None? || r.None? then None else Some(Binary(l.value, op, r.value))
    case _ => Some(e)
  }

  /** The reader's result for e when the tokens k follow it. */
  ghost function Then(e: Option<Expr>, k: seq<Token>): Option<(Expr, seq<Token>)> {
    if e.None? then None else Some((e.value, k))
  }

  /** No operator of the condition grammar comes next. */
  ghost predicate Stops(k: seq<Token>) {
    k == [] || (k[0] != AND && k[0] != OR && !k[0].Compare?)
  }

  /** Texts that start like a number are none of the words the reader knows. */
  lemma NumbersAreNotWords(word: string)
    requires word != "" && (IsDigit(word[0]) || word[0] == '-')
    ensures word != "true" && word != "false" && word != "NULL"
  {
  }

  lemma ReadNatural(n: nat)
    ensures ReadScalar(Numeral(n)) == Some(Int(n))
  {
    hide Numeral, ValueOf;
    NumeralRoundTrip(n);
    assert IsDigit(Numeral(n)[0]);
    NumbersAreNotWords(Numeral(n));
  }

  lemma ReadNegative(n: nat)
    ensures ReadScalar("-" + Numeral(n)) == Some(Int(-(n as int)))
  {
    hide Numeral, ValueOf;
    NumeralRoundTrip(n);
    var word := "-" + Numeral(n);
    assert word[1..] == Numeral(n);
    assert word[0] == '-' && !IsDigit(word[0]);
    NumbersAreNotWords(word);
  }

  lemma ReadScalarDisplay(scalar: Scalar)
    requires !scalar.Foreign?
    ensures ReadScalar(Display(scalar)) == Some(scalar)
  {
    if scalar.Int? {
      if scalar.i < 0 {
        ReadNegative(-scalar.i);
      } else {
        ReadNatural(scalar.i);
      }
      hide Numeral, ReadScalar;
    }
  }

  // One level of the grammar at a time: a level passes on what the level below it read.

  lemma AndLevel(ts: seq<Token>, x: Option<Expr>, k: seq<Token>)
    requires ParseNot(ts) == Then(x, k) && !StartsWith(k, AND)
    ensures ParseAnd(ts) == Then(x, k)
  {
  }

  lemma OrLevel(ts: seq<Token>, x: Option<Expr>, k: seq<Token>)
    requires ParseNot(ts) == Then(x, k) && !StartsWith(k, AND) && !StartsWith(k, OR)
    ensures ParseOr(ts) == Then(x, k)
  {
    AndLevel(ts, x, k);
  }

  lemma AndTailStep(left: Expr, k: seq<Token>, y: Option<Expr>, k': seq<Token>)
    requires StartsWith(k, AND) && ParseNot(k[1..]) == Then(y, k')
    ensures AndTail(left, k) == if y.None? then None else AndTail(Binary(left, And, y.value), k')
  {
  }

  lemma OrTailStep(left: Expr, k: seq<Token>, y: Option<Expr>, k': seq<Token>)
    requires StartsWith(k, OR) && ParseAnd(k[1..]) == Then(y, k')
    ensures OrTail(left, k) == if y.None? then None else OrTail(Binary(left, Or, y.value), k')
  {
  }

  /** Two operands joined by one AND, or by one OR, with nothing of the grammar after them. */
  lemma AndStep(ts: seq<Token>, x: Option<Expr>, k: seq<Token>, y: Option<Expr>, k': seq<Token>)
    requires ParseNot(ts) == Then(x, k) && StartsWith(k, AND) && ParseNot(k[1..]) == Then(y, k')
    requires !StartsWith(k', AND) && !StartsWith(k', OR)
    ensures ParseOr(ts) == if x.None? || y.None? then None else Some((Binary(x.value, And, y.value), k'))
  {
    if x.Some? {
      AndTailStep(x.value, k, y, k');
      assert ParseAnd(ts) == AndTail(x.value, k);
    }
  }

  lemma OrStep(ts: seq<Token>, x: Option<Expr>, k: seq<Token>, y: Option<Expr>, k': seq<Token>)
    requires ParseNot(ts) == Then(x, k) && StartsWith(k, OR) && ParseNot(k[1..]) == Then(y, k')
    requires !StartsWith(k', AND) && !StartsWith(k', OR)
    ensures ParseOr(ts) == if x.None? || y.None? then None else Some((Binary(x.value, Or, y.value), k'))
  {
    AndLevel(ts, x, k);
    AndLevel(k[1..], y, k');
    if x.Some? {
      OrTailStep(x.value, k, y, k');
    }
  }

  lemma ComparisonLevel(ts: seq<Token>, x: Option<Expr>, k: seq<Token>)
    requires ParsePrimary(ts) == Then(x, k) && !StartsWith(ts, NOT) && (k == [] || !k[0].Compare?)
    ensures ParseNot(ts) == Then(x, k)
  {
    assert ParseComparison(ts) == Then(x, k);
  }

  /** A comparison at the NOT level: both operands are primaries. */
  lemma ComparisonStep(ts: seq<Token>, x: Option<Expr>, k: seq<Token>, y: Option<Expr>, k': seq<Token>)
    requires ParsePrimary(ts) == Then(x, k) && !StartsWith(ts, NOT)
    requires k != [] && k[0].Compare? && ParsePrimary(k[1..]) == Then(y, k')
    ensures ParseNot(ts) == if x.None? || y.None? then None else Some((Binary(x.value, k[0].op, y.value), k'))
  {
    assert ParseNot(ts) == ParseComparison(ts);
  }

  lemma NotStep(ts: seq<Token>)
    ensures ParseNot([NOT] + ts) == match ParseNot(ts) case None => None case Some((e, rest)) => Some((Not(e), rest))
  {
    assert ([NOT] + ts)[1..] == ts;
  }

  /** A parenthesised condition is a primary. */
  lemma ParenPrimary(ts: seq<Token>, x: Option<Expr>, k: seq<Token>)
    requires ParseOr(ts + ([RParen] + k)) == Then(x, [RParen] + k)
    ensures ParsePrimary([LParen] + ts + [RParen] + k) == Then(x, k)
  {
    var all := [LParen] + ts + [RParen] + k;
    assert all[1..] == ts + ([RParen] + k);
    assert ([RParen] + k)[1..] == k;
  }

  lemma DisplayIsNotKeyword(scalar: Scalar)
    requires !scalar.Foreign?
    ensures Display(scalar) != "NOT"
  {
    ReadScalarDisplay(scalar);
    assert ReadScalar("NOT").None?;
  }

  lemma StartsWithNot(e: Expr, k: seq<Token>)
    requires Printable(e)
    ensures StartsWith(Tokens(e) + k, NOT) <==> e.Not?
  {
    if e.Literal? {
      DisplayIsNotKeyword(e.scalar);
    }
  }

  /** The tokens between the parentheses of a binary expression. */
  ghost function Inside(e: Expr): seq<Token>
    requires Printable(e) && e.Binary?
  {
    Tokens(e.left) + [OperatorToken(e.op)] + Tokens(e.right)
  }

  /** The operand of a printed NOT reads as a primary. */
  lemma {:induction false} NotOperandIsPrimary(e: Expr, k: seq<Token>) returns (operand: seq<Token>)
    requires Printable(e) && e.Not?
    ensures Tokens(e) + k == [NOT] + operand && !StartsWith(operand, NOT)
    ensures ParsePrimary(operand) == Then(Reread(e.inner), k)
    decreases e, 0
  {
    ReadsAsCondition(e.inner, [RParen] + k);
    hide ParseOr, ParsePrimary, Reread;
    ParenPrimary(Tokens(e.inner), Reread(e.inner), k);
    operand := [LParen] + Tokens(e.inner) + [RParen] + k;
    assert Tokens(e) + k == [NOT] + operand;
  }

  /** Every other printed expression reads as a primary itself. */
  lemma {:induction false} ReadsAsPrimary(e: Expr, k: seq<Token>)
    requires Printable(e) && !e.Not?
    ensures ParsePrimary(Tokens(e) + k) == Then(Reread(e), k)
    decreases e, 1
  {
    var ts := Tokens(e) + k;
    match e
    case Column(_, name) => assert ts[1..] == k;
    case Literal(scalar) =>
      ReadScalarDisplay(scalar);
      assert ts[1..] == k;
    case Binary(left, op, right) =>
      if op.IsComparison() {
        ReadsComparison(e, k);
      } else {
        ReadsConnective(e, k);
      }
      ParenPrimary(Inside(e), Reread(e), k);
      assert ts == [LParen] + Inside(e) + [RParen] + k;
  }

  lemma {:induction false} ReadsConnective(e: Expr, k: seq<Token>)
    requires Printable(e) && e.Binary? && (e.op.And? || e.op.Or?)
    ensures ParseOr(Inside(e) + ([RParen] + k)) == Then(Reread(e), [RParen] + k)
    decreases e, 0
  {
    hide Tokens, ParseOr, ParseNot;
    var Binary(left, op, right) := e;
    var close := [RParen] + k;
    var k1 := [OperatorToken(op)] + (Tokens(right) + close);
    var ts := Tokens(left) + k1;
    assert Inside(e) + close == ts;
    assert k1[1..] == Tokens(right) + close;
    ReadsAsNotOperand(left, k1);
    ReadsAsNotOperand(right, close);
    if op.And? {
      AndStep(ts, Reread(left), k1, Reread(right), close);
    } else {
      OrStep(ts, Reread(left), k1, Reread(right), close);
    }
  }

  lemma InsideTokens(e: Expr, k: seq<Token>)
    requires Printable(e) && e.Binary?
    ensures Inside(e) + k == Tokens(e.left) + ([OperatorToken(e.op)] + (Tokens(e.right) + k))
  {
    hide Tokens;
  }

  lemma NotIsNoPrimary(e: Expr, k: seq<Token>)
    requires Printable(e) && e.Not?
    ensures ParsePrimary(Tokens(e) + k).None?
  {
    var ts := Tokens(e) + k;
    assert ts[0] == NOT && ReadScalar("NOT").None?;
  }

  lemma {:induction false} ReadsComparison(e: Expr, k: seq<Token>)
    requires Printable(e) && e.Binary? && e.op.IsComparison()
    ensures ParseOr(Inside(e) + ([RParen] + k)) == Then(Reread(e), [RParen] + k)
    decreases e, 0
  {
    var Binary(left, op, right) := e;
    var close := [RParen] + k;
    var k1 := [OperatorToken(op)] + (Tokens(right) + close);
    var ts := Tokens(left) + k1;
    InsideTokens(e, close);
    hide Tokens, Inside, ParseOr, ParsePrimary, ParseNot;
    assert k1[1..] == Tokens(right) + close;
    var y := if right.Not? then None else Reread(right);
    if right.Not? {
      NotIsNoPrimary(right, close);
    } else {
      ReadsAsPrimary(right, close);
    }
    if left.Not? {
      var operand := NotOperandIsPrimary(left, k1);
      ComparisonStep(operand, Reread(left.inner), k1, y, close);
      NotStep(operand);
    } else {
      ReadsAsPrimary(left, k1);
      StartsWithNot(left, k1);
      ComparisonStep(ts, Reread(left), k1, y, close);
    }
    OrLevel(ts, Reread(e), close);
  }

  /** Followed by anything but a comparison, a printed expression reads whole at the NOT level. */
  lemma {:induction false} ReadsAsNotOperand(e: Expr, k: seq<Token>)
    requires Printable(e) && (k == [] || !k[0].Compare?)
    ensures ParseNot(Tokens(e) + k) == Then(Reread(e), k)
    decreases e, 2
  {
    if e.Not? {
      var operand := NotOperandIsPrimary(e, k);
      ComparisonLevel(operand, Reread(e.inner), k);
      NotStep(operand);
    } else {
      ReadsAsPrimary(e, k);
      StartsWithNot(e, k);
      ComparisonLevel(Tokens(e) + k, Reread(e), k);
    }
  }

  lemma {:induction false} ReadsAsCondition(e: Expr, k: seq<Token>)
    requires Printable(e) && Stops(k)
    ensures ParseOr(Tokens(e) + k) == Then(Reread(e), k)
    decreases e, 3
  {
    ReadsAsNotOperand(e, k);
    OrLevel(Tokens(e) + k, Reread(e), k);
  }

  // ----- Main results -----

  /** For every printable expression, what reading its text yields. */
  lemma ReadConditionExact(e: Expr)
    requires Printable(e)
    ensures ReadCondition(Sql(e)) == Reread(e)
  {
    LexPrinted(e, "");
    assert Sql(e) + "" == Sql(e) && Tokens(e) + [] == Tokens(e);
    assert Lex("") == [];
    ReadsAsCondition(e, []);
  }

  function Unqualified(e: Expr): Expr {
    match e
    case Binary(left, op, right) => Binary(Unqualified(left), op, Unqualified(right))
    case Column(_, name) => Column(None, name)
    case Not(inner) => Not(Unqualified(inner))
    case _ => e
  }

  /** No comparison has a NOT as a direct operand. */
  predicate Faithful(e: Expr) {
    match e
    case Binary(left, op, right) =>
      && Faithful(left) && Faithful(right)
      && (op.IsComparison() ==> !left.Not? && !right.Not?)
    case Not(inner) => Faithful(inner)
    case _ => true
  }

  lemma {:induction false} RereadFaithful(e: Expr)
    ensures Reread(e) == Some(Unqualified(e)) <==> Faithful(e)
  {
    match e
    case Binary(left, op, right) =>
      RereadFaithful(left);
      RereadFaithful(right);
    case Not(inner) => RereadFaithful(inner);
    case _ =>
  }

  /** The text reads back as the expression, up to column qualifiers, exactly when no comparison
      has a NOT as a direct operand. */
  lemma PrintReadRoundTrip(e: Expr)
    requires Printable(e)
    ensures ReadCondition(Sql(e)) == Some(Unqualified(e)) <==> Faithful(e)
  {
    ReadConditionExact(e);
    RereadFaithful(e);
  }

  lemma DisplayInjective(a: Scalar, b: Scalar)
    requires !a.Foreign? && !b.Foreign? && Display(a) == Display(b)
    ensures a == b
  {
    ReadScalarDisplay(a);
    ReadScalarDisplay(b);
  }

  /** The printer's own grammar, read from the left, is unambiguous and self-delimiting. */
  lemma {:induction false} TokensInjective(a: Expr, k: seq<Token>, b: Expr, k': seq<Token>)
    requires Printable(a) && Printable(b) && Tokens(a) + k == Tokens(b) + k'
    ensures Unqualified(a) == Unqualified(b) && k == k'
    decreases a
  {
    StartsWithNot(a, k);
    StartsWithNot(b, k');
    assert (Tokens(a) + k)[0] == Tokens(a)[0] && (Tokens(b) + k')[0] == Tokens(b)[0];
    assert a.Not? || b.Not? || a.Binary? || b.Binary? ==> (a.Not? <==> b.Not?) && (a.Binary? <==> b.Binary?);
    if a.Not? {
      NotTokensInjective(a, k, b, k');
    } else if a.Binary? {
      BinaryTokensInjective(a, k, b, k');
    } else {
      assert (Tokens(a) + k)[1..] == k && (Tokens(b) + k')[1..] == k';
      if a.Literal? {
        DisplayInjective(a.scalar, b.scalar);
      }
    }
  }

  lemma {:induction false} NotTokensInjective(a: Expr, k: seq<Token>, b: Expr, k': seq<Token>)
    requires Printable(a) && Printable(b) && a.Not? && b.Not? && Tokens(a) + k == Tokens(b) + k'
    ensures Unqualified(a) == Unqualified(b) && k == k'
    decreases a, 0
  {
    var rest, rest' := [RParen] + k, [RParen] + k';
    NotTokens(a, k);
    NotTokens(b, k');
    hide Tokens;
    SameHead(NOT, [LParen] + (Tokens(a.inner) + rest), NOT, [LParen] + (Tokens(b.inner) + rest'));
    SameHead(LParen, Tokens(a.inner) + rest, LParen, Tokens(b.inner) + rest');
    TokensInjective(a.inner, rest, b.inner, rest');
    SameHead(RParen, k, RParen, k');
  }

  lemma NotTokens(e: Expr, k: seq<Token>)
    requires Printable(e) && e.Not?
    ensures Tokens(e) + k == [NOT] + ([LParen] + (Tokens(e.inner) + ([RParen] + k)))
  {
  }

  lemma SameHead(x: Token, s: seq<Token>, y: Token, t: seq<Token>)
    requires [x] + s == [y] + t
    ensures x == y && s == t
  {
    assert ([x] + s)[0] == x && ([y] + t)[0] == y;
    assert ([x] + s)[1..] == s && ([y] + t)[1..] == t;
  }

  ghost function AfterLeft(e: Expr, k: seq<Token>): seq<Token>
    requires Printable(e) && e.Binary?
  {
    [OperatorToken(e.op)] + (Tokens(e.right) + ([RParen] + k))
  }

  lemma BinaryTokens(e: Expr, k: seq<Token>)
    requires Printable(e) && e.Binary?
    ensures Tokens(e) + k == [LParen] + (Tokens(e.left) + AfterLeft(e, k))
  {
    assert Tokens(e) == [LParen] + Tokens(e.left) + [OperatorToken(e.op)] + Tokens(e.right) + [RParen];
    hide Tokens;
    Regrouped([LParen], Tokens(e.left), [OperatorToken(e.op)], Tokens(e.right), [RParen], k);
  }

  lemma Regrouped<T>(a: seq<T>, b: seq<T>, c: seq<T>, d: seq<T>, e: seq<T>, k: seq<T>)
    ensures a + b + c + d + e + k == a + (b + (c + (d + (e + k))))
  {
    assert a + b + c + d + e + k == a + (b + c + d + e + k);
    assert b + c + d + e + k == b + (c + d + e + k);
  }

  lemma {:induction false} BinaryTokensInjective(a: Expr, k: seq<Token>, b: Expr, k': seq<Token>)
    requires Printable(a) && Printable(b) && a.Binary? && b.Binary? && Tokens(a) + k == Tokens(b) + k'
    ensures Unqualified(a) == Unqualified(b) && k == k'
    decreases a, 0
  {
    BinaryTokens(a, k);
    BinaryTokens(b, k');
    hide Tokens;
    SameHead(LParen, Tokens(a.left) + AfterLeft(a, k), LParen, Tokens(b.left) + AfterLeft(b, k'));
    TokensInjective(a.left, AfterLeft(a, k), b.left, AfterLeft(b, k'));
    var rest, rest' := Tokens(a.right) + ([RParen] + k), Tokens(b.right) + ([RParen] + k');
    SameHead(OperatorToken(a.op), rest, OperatorToken(b.op), rest');
    TokensInjective(a.right, [RParen] + k, b.right, [RParen] + k');
    SameHead(RParen, k, RParen, k');
  }

  /** Any two printable expressions that differ beyond qualifiers print differently, also those that
      are misread: the text always determines the filter it was printed from. */
  lemma PrintInjective(a: Expr, b: Expr)
    requires Printable(a) && Printable(b) && Sql(a) == Sql(b)
    ensures Unqualified(a) == Unqualified(b)
  {
    LexPrinted(a, "");
    LexPrinted(b, "");
    assert Sql(a) + "" == Sql(a) && Sql(b) + "" == Sql(b);
    TokensInjective(a, Lex(""), b, Lex(""));
  }
}
