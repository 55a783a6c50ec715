/** NOT as the left operand of a comparison. It is printed without parentheses of its own, so
    `(NOT x) op y` is read as `NOT (x op y)` (crates/elan-query/src/planner/remote_scan.rs:230-259).
    Which filters this changes, and on which rows re-filtering repairs the change. */
module CapturedNot {
  import opened Wrappers
  import opened SqlPrinter
  import opened SqlRoundTrip
  import opened StatementRoundTrip
  import opened Pushdown

  // ----- One comparison -----

  predicate IsBoolean(v: Value) { v.BoolValue? || v.NullValue? }

  /** Comparisons whose truth a captured NOT can add (`<`, `>`) or take away (`<=`, `>=`). */
  predicate Widens(op: Operator) { op.Lt? || op.Gt? }
  predicate Narrows(op: Operator) { op.LtEq? || op.GtEq? }

  /** The boolean operands a of NOT and b on which capture changes the value of `(NOT a) op b`. */
  predicate Differs(op: Operator, a: Value, b: Value) {
    && a.BoolValue?
    && ((op in {Lt, GtEq} && b == FALSE) || (op in {Gt, LtEq} && b == TRUE))
  }

  lemma CaptureChanges(op: Operator, a: Value, b: Value, interp: Interpretation)
    requires op.IsComparison() && IsBoolean(a) && IsBoolean(b)
    ensures var meant, read := CompareValues(op, NotValue(a), b, interp), NotValue(CompareValues(op, a, b, interp));
            && IsBoolean(meant)
            && (meant == read <==> !Differs(op, a, b))
            && (Differs(op, a, b) ==> meant == BoolValue(Narrows(op)) && read == BoolValue(Widens(op)))
  {
  }

  // ----- Filters -----

  /** Every captured comparison in e has boolean operands on this row. */
  ghost predicate BooleanCaptured(e: Expr, row: Row, interp: Interpretation) {
    match e
    case Binary(left, op, right) =>
      && BooleanCaptured(left, row, interp) && BooleanCaptured(right, row, interp)
      && (op.IsComparison() && left.Not? ==>
           IsBoolean(Eval(left.inner, row, interp)) && IsBoolean(Eval(right, row, interp)))
    case Not(inner) => BooleanCaptured(inner, row, interp)
    case _ => true
  }

  /** Nothing in e changes its value on this row. */
  ghost predicate ReadsSame(e: Expr, row: Row, interp: Interpretation) {
    match e
    case Binary(left, op, right) =>
      && ReadsSame(left, row, interp) && ReadsSame(right, row, interp)
      && (op.IsComparison() && left.Not? ==>
            !Differs(op, Eval(left.inner, row, interp), Eval(right, row, interp)))
    case Not(inner) => ReadsSame(inner, row, interp)
    case _ => true
  }

  lemma ReadCaptured(inner: Expr, op: Operator, right: Expr, row: Row, interp: Interpretation)
    requires op.IsComparison() && !right.Not? && Reread(inner).Some? && Reread(right).Some?
    ensures var e := Binary(Not(inner), op, right);
            var a, b := Eval(inner, row, interp), Eval(right, row, interp);
            var c, d := Eval(Reread(inner).value, row, interp), Eval(Reread(right).value, row, interp);
            && Eval(e, row, interp) == CompareValues(op, NotValue(a), b, interp)
            && Reread(e).Some?
            && Eval(Reread(e).value, row, interp) == NotValue(CompareValues(op, c, d, interp))
  {
    var read := Binary(Reread(inner).value, op, Reread(right).value);
    assert Reread(Binary(Not(inner), op, right)) == Some(Not(read));
    assert Eval(Not(inner), row, interp) == NotValue(Eval(inner, row, interp));
    assert Eval(Not(read), row, interp) == NotValue(Eval(read, row, interp));
  }

  lemma {:induction false} SameValue(e: Expr, row: Row, interp: Interpretation)
    requires NoNotOnTheRight(e) && BooleanCaptured(e, row, interp) && ReadsSame(e, row, interp)
    ensures Reread(e).Some? && Eval(Reread(e).value, row, interp) == Eval(e, row, interp)
  {
    match e
    case Binary(left, op, right) =>
      SameValue(right, row, interp);
      if op.IsComparison() && left.Not? {
        SameValue(left.inner, row, interp);
        hide Eval, Reread;
        ReadCaptured(left.inner, op, right, row, interp);
        CaptureChanges(op, Eval(left.inner, row, interp), Eval(right, row, interp), interp);
      } else {
        SameValue(left, row, interp);
      }
    case Not(inner) => SameValue(inner, row, interp);
    case _ =>
  }

  /** Below an even number of NOTs (`positive`) capture may add truth, below an odd number it may take
      truth away; operands of comparisons must keep their value. */
  ghost predicate ReadsSafely(e: Expr, positive: bool, row: Row, interp: Interpretation) {
    match e
    case Binary(left, op, right) =>
      if op.And? || op.Or? then ReadsSafely(left, positive, row, interp) && ReadsSafely(right, positive, row, interp)
      else if op.IsComparison() && left.Not? then
        && ReadsSame(left.inner, row, interp) && ReadsSame(right, row, interp)
        && (Differs(op, Eval(left.inner, row, interp), Eval(right, row, interp)) ==>
             if positive then Widens(op) else Narrows(op))
      else ReadsSame(e, row, interp)
    case Not(inner) => ReadsSafely(inner, !positive, row, interp)
    case _ => true
  }

  lemma ReadConnective(left: Expr, op: Operator, right: Expr, row: Row, interp: Interpretation)
    requires (op.And? || op.Or?) && Reread(left).Some? && Reread(right).Some?
    ensures var e := Binary(left, op, right);
            var a, b := Eval(left, row, interp), Eval(right, row, interp);
            var c, d := Eval(Reread(left).value, row, interp), Eval(Reread(right).value, row, interp);
            && Eval(e, row, interp) == (if op.And? then AndValues(a, b) else OrValues(a, b))
            && Reread(e).Some?
            && Eval(Reread(e).value, row, interp) == (if op.And? then AndValues(c, d) else OrValues(c, d))
  {
    assert Reread(Binary(left, op, right)) == Some(Binary(Reread(left).value, op, Reread(right).value));
  }

  /** A filter read safely is true in its text of every row it is true of. */
  lemma {:induction false} SafeValue(e: Expr, positive: bool, row: Row, interp: Interpretation)
    requires NoNotOnTheRight(e) && BooleanCaptured(e, row, interp) && ReadsSafely(e, positive, row, interp)
    ensures Reread(e).Some?
    ensures positive && Eval(e, row, interp) == TRUE ==> Eval(Reread(e).value, row, interp) == TRUE
    ensures !positive && Eval(e, row, interp) == FALSE ==> Eval(Reread(e).value, row, interp) == FALSE
  {
    match e
    case Binary(left, op, right) =>
      if op.And? || op.Or? {
        SafeValue(left, positive, row, interp);
        SafeValue(right, positive, row, interp);
        hide Eval, Reread, ReadsSafely, BooleanCaptured, NoNotOnTheRight;
        ReadConnective(left, op, right, row, interp);
      } else if op.IsComparison() && left.Not? {
        SameValue(left.inner, row, interp);
        SameValue(right, row, interp);
        hide Eval, Reread, ReadsSame;
        ReadCaptured(left.inner, op, right, row, interp);
        CaptureChanges(op, Eval(left.inner, row, interp), Eval(right, row, interp), interp);
      } else {
        SameValue(e, row, interp);
      }
    case Not(inner) => SafeValue(inner, !positive, row, interp);
    case _ =>
  }

  // ----- Filter lists -----

  ghost predicate Captures(filters: seq<Expr>, rows: seq<Row>, interp: Interpretation) {
    forall f :: f in filters && Supported(f) ==>
      Printable(f) && NoNotOnTheRight(f) && forall row :: row in rows ==> BooleanCaptured(f, row, interp)
  }

  /** If nothing changes a filter's value on the rows of a table, all filters are read exactly there, so
      re-filtering and limits are right (ExactIsRepairable, LimitSound). */
  lemma SameFiltersExact(filters: seq<Expr>, rows: seq<Row>, interp: Interpretation)
    requires Captures(filters, rows, interp)
    requires forall f, row :: f in Pushed(filters) && row in rows ==> ReadsSame(f, row, interp)
    ensures ReadExactly(filters, rows, interp)
  {
    ReadableIff(filters);
    forall f, row | f in Pushed(filters) && row in rows
      ensures ReadTrue(f, row, interp) <==> Eval(f, row, interp) == TRUE
    {
      SameValue(f, row, interp);
    }
  }

  lemma SafeFiltersRepairable(filters: seq<Expr>, rows: seq<Row>, interp: Interpretation)
    requires Captures(filters, rows, interp)
    requires forall f, row :: f in Pushed(filters) && row in rows ==> ReadsSafely(f, true, row, interp)
    ensures Repairable(filters, rows, interp)
  {
    ReadableIff(filters);
    RepairableIff(filters, rows, interp);
    forall f, row | f in Pushed(filters) && row in rows && Keeps(filters, interp)(row)
      ensures ReadTrue(f, row, interp)
    {
      SafeValue(f, true, row, interp);
    }
  }

  // ----- By operator alone -----

  /** Every captured comparison is `=` or `!=`. */
  predicate EqualityOnly(e: Expr) {
    match e
    case Binary(left, op, right) =>
      EqualityOnly(left) && EqualityOnly(right) && (op.IsComparison() && left.Not? ==> op.Eq? || op.NotEq?)
    case Not(inner) => EqualityOnly(inner)
    case _ => true
  }

  /** Outside of comparison operands, a captured comparison below an even number of NOTs may also be
      `<` or `>`, and one below an odd number `<=` or `>=`. */
  predicate Polarised(e: Expr, positive: bool) {
    match e
    case Binary(left, op, right) =>
      if op.And? || op.Or? then Polarised(left, positive) && Polarised(right, positive)
      else if op.IsComparison() && left.Not? then
        && EqualityOnly(left.inner) && EqualityOnly(right)
        && (op.Eq? || op.NotEq? || if positive then Widens(op) else Narrows(op))
      else EqualityOnly(e)
    case Not(inner) => Polarised(inner, !positive)
    case _ => true
  }

  lemma {:induction false} EqualityReadsSame(e: Expr, row: Row, interp: Interpretation)
    requires EqualityOnly(e)
    ensures ReadsSame(e, row, interp)
  {
    match e
    case Binary(left, op, right) =>
      EqualityReadsSame(left, row, interp);
      EqualityReadsSame(right, row, interp);
    case Not(inner) => EqualityReadsSame(inner, row, interp);
    case _ =>
  }

  lemma {:induction false} PolarisedReadsSafely(e: Expr, positive: bool, row: Row, interp: Interpretation)
    requires Polarised(e, positive)
    ensures ReadsSafely(e, positive, row, interp)
  {
    match e
    case Binary(left, op, right) =>
      if op.And? || op.Or? {
        PolarisedReadsSafely(left, positive, row, interp);
        PolarisedReadsSafely(right, positive, row, interp);
      } else if op.IsComparison() && left.Not? {
        EqualityReadsSame(left.inner, row, interp);
        EqualityReadsSame(right, row, interp);
      } else {
        EqualityReadsSame(e, row, interp);
      }
    case Not(inner) => PolarisedReadsSafely(inner, !positive, row, interp);
    case _ =>
  }

  /** A captured `=` or `!=` over boolean operands changes nothing, at any depth. */
  lemma EqualityFiltersExact(filters: seq<Expr>, rows: seq<Row>, interp: Interpretation)
    requires Captures(filters, rows, interp)
    requires forall f :: f in Pushed(filters) ==> EqualityOnly(f)
    ensures ReadExactly(filters, rows, interp)
  {
    forall f, row | f in Pushed(filters) && row in rows
      ensures ReadsSame(f, row, interp)
    {
      EqualityReadsSame(f, row, interp);
    }
    SameFiltersExact(filters, rows, interp);
  }

  /** The polarity of a captured ordering decides whether re-filtering repairs it. */
  lemma PolarisedFiltersRepairable(filters: seq<Expr>, rows: seq<Row>, interp: Interpretation)
    requires Captures(filters, rows, interp)
    requires forall f :: f in Pushed(filters) ==> Polarised(f, true)
    ensures Repairable(filters, rows, interp)
  {
    forall f, row | f in Pushed(filters) && row in rows
      ensures ReadsSafely(f, true, row, interp)
    {
      PolarisedReadsSafely(f, true, row, interp);
    }
    SafeFiltersRepairable(filters, rows, interp);
  }

  // ----- Where it goes wrong -----

  /** `(NOT x) op y`. */
  function NotCompared(x: Expr, op: Operator, y: Expr): Expr {
    Binary(Not(x), op, y)
  }

  ghost predicate Operand(e: Expr) {
    Printable(e) && Faithful(e) && !e.Not?
  }

  /** One filter that its text is not read back as. */
  lemma OneFilterExact(table: string, f: Expr, mounts: Mounts, interp: Interpretation)
    requires '"' !in table && table in mounts && Printable(f) && Supported(f) && NoNotOnTheRight(f)
    ensures RefilterCorrect(table, [f], mounts, interp) <==>
            forall row :: row in mounts[table] && Eval(f, row, interp) == TRUE ==> ReadTrue(f, row, interp)
  {
    assert Pushed([f]) == [f];
    ReadableIff([f]);
    RefilterExact(table, [f], mounts, interp);
    RepairableIff([f], mounts[table], interp);
    forall row
      ensures Keeps([f], interp)(row) <==> Eval(f, row, interp) == TRUE
    {
      assert f in [f];
    }
    assert Repairable([f], mounts[table], interp) <==> RefilterCorrect(table, [f], mounts, interp);
    if RefilterCorrect(table, [f], mounts, interp) {
      assert f in Pushed([f]);
    }
  }

  lemma CapturedValues(x: Expr, op: Operator, y: Expr, row: Row, interp: Interpretation)
    requires Printable(x) && Faithful(x) && Operand(y) && op.IsComparison()
    ensures var f := NotCompared(x, op, y);
            var a, b := Eval(x, row, interp), Eval(y, row, interp);
            && Printable(f) && Supported(f) && NoNotOnTheRight(f) && Reread(f).Some?
            && Eval(f, row, interp) == CompareValues(op, NotValue(a), b, interp)
            && Eval(Reread(f).value, row, interp) == NotValue(CompareValues(op, a, b, interp))
  {
    var f := NotCompared(x, op, y);
    RereadFaithful(x);
    RereadFaithful(y);
    RereadSome(x);
    RereadSome(y);
    PrintableTranslates(x);
    PrintableTranslates(y);
    TranslatedWholly(x);
    TranslatedWholly(y);
    UnqualifiedSameValue(x, row, interp);
    UnqualifiedSameValue(y, row, interp);
    ReadCaptured(x, op, y, row, interp);
    hide Eval, Reread, Unqualified;
  }

  ghost predicate BooleanOperands(x: Expr, y: Expr, rows: seq<Row>, interp: Interpretation) {
    forall row :: row in rows ==> IsBoolean(Eval(x, row, interp)) && IsBoolean(Eval(y, row, interp))
  }

  /** The row's operand values are among those that capture changes. */
  ghost predicate Changed(x: Expr, op: Operator, y: Expr, row: Row, interp: Interpretation) {
    Differs(op, Eval(x, row, interp), Eval(y, row, interp))
  }

  /** As a whole filter, `(NOT x) op y` is repaired on exactly the tables on which `<=` and `>=` change
      no value; `<`, `>`, `=` and `!=` are always repaired. */
  lemma NotComparedExact(table: string, x: Expr, op: Operator, y: Expr, mounts: Mounts, interp: Interpretation)
    requires Printable(x) && Faithful(x) && Operand(y) && op.IsComparison()
    requires '"' !in table && table in mounts && BooleanOperands(x, y, mounts[table], interp)
    ensures RefilterCorrect(table, [NotCompared(x, op, y)], mounts, interp) <==>
            forall row :: row in mounts[table] ==> !(Narrows(op) && Changed(x, op, y, row, interp))
  {
    var f := NotCompared(x, op, y);
    CapturedValues(x, op, y, map[], interp);
    OneFilterExact(table, f, mounts, interp);
    hide Eval, Reread, RefilterCorrect, Printable, Faithful, Supported, NotCompared;
    forall row | row in mounts[table]
      ensures Eval(f, row, interp) == TRUE && !ReadTrue(f, row, interp) <==>
              Narrows(op) && Changed(x, op, y, row, interp)
    {
      CapturedValues(x, op, y, row, interp);
      CaptureChanges(op, Eval(x, row, interp), Eval(y, row, interp), interp);
    }
  }

  /** Negated, it is the other way round: `NOT ((NOT x) op y)` can fail for `<` and `>` only. */
  lemma NegatedExact(table: string, x: Expr, op: Operator, y: Expr, mounts: Mounts, interp: Interpretation)
    requires Printable(x) && Faithful(x) && Operand(y) && op.IsComparison()
    requires '"' !in table && table in mounts && BooleanOperands(x, y, mounts[table], interp)
    ensures RefilterCorrect(table, [Not(NotCompared(x, op, y))], mounts, interp) <==>
            forall row :: row in mounts[table] ==> !(Widens(op) && Changed(x, op, y, row, interp))
  {
    var inner := NotCompared(x, op, y);
    var f := Not(inner);
    CapturedValues(x, op, y, map[], interp);
    OneFilterExact(table, f, mounts, interp);
    forall row | row in mounts[table]
      ensures Eval(f, row, interp) == TRUE && !ReadTrue(f, row, interp) <==>
              Widens(op) && Changed(x, op, y, row, interp)
    {
      CapturedValues(x, op, y, row, interp);
      CaptureChanges(op, Eval(x, row, interp), Eval(y, row, interp), interp);
      assert Eval(f, row, interp) == NotValue(Eval(inner, row, interp));
      assert Reread(f) == Some(Not(Reread(inner).value));
      assert Eval(Reread(f).value, row, interp) == NotValue(Eval(Reread(inner).value, row, interp));
    }
  }

  /** Compared in turn, `((NOT x) op y) = z` can fail for all four orderings, and does on exactly the
      rows on which capture changes the inner value away from that of z. */
  lemma NestedExact(
    table: string, x: Expr, op: Operator, y: Expr, z: Expr, mounts: Mounts, interp: Interpretation
  )
    requires Printable(x) && Faithful(x) && Operand(y) && Operand(z) && op.IsComparison()
    requires '"' !in table && table in mounts && BooleanOperands(x, y, mounts[table], interp)
    requires BooleanOperands(z, z, mounts[table], interp)
    ensures RefilterCorrect(table, [Binary(NotCompared(x, op, y), Eq, z)], mounts, interp) <==>
            forall row :: row in mounts[table] ==>
              !(Changed(x, op, y, row, interp) && Eval(z, row, interp) == BoolValue(Narrows(op)))
  {
    var inner := NotCompared(x, op, y);
    var f := Binary(inner, Eq, z);
    CapturedValues(x, op, y, map[], interp);
    RereadFaithful(z);
    RereadSome(z);
    PrintableTranslates(z);
    TranslatedWholly(z);
    OneFilterExact(table, f, mounts, interp);
    forall row | row in mounts[table]
      ensures Eval(f, row, interp) == TRUE && !ReadTrue(f, row, interp) <==>
              Changed(x, op, y, row, interp) && Eval(z, row, interp) == BoolValue(Narrows(op))
    {
      NestedValues(x, op, y, z, row, interp);
    }
  }

  lemma NestedValues(x: Expr, op: Operator, y: Expr, z: Expr, row: Row, interp: Interpretation)
    requires Printable(x) && Faithful(x) && Operand(y) && Operand(z) && op.IsComparison()
    requires IsBoolean(Eval(x, row, interp)) && IsBoolean(Eval(y, row, interp)) && IsBoolean(Eval(z, row, interp))
    ensures var f := Binary(NotCompared(x, op, y), Eq, z);
            Eval(f, row, interp) == TRUE && !ReadTrue(f, row, interp) <==>
            Changed(x, op, y, row, interp) && Eval(z, row, interp) == BoolValue(Narrows(op))
  {
    var inner := NotCompared(x, op, y);
    var f := Binary(inner, Eq, z);
    CapturedValues(x, op, y, row, interp);
    CaptureChanges(op, Eval(x, row, interp), Eval(y, row, interp), interp);
    RereadFaithful(z);
    UnqualifiedSameValue(z, row, interp);
    var c, read := Eval(z, row, interp), Reread(inner).value;
    assert Reread(f) == Some(Binary(read, Eq, Unqualified(z)));
    assert Eval(f, row, interp) == CompareValues(Eq, Eval(inner, row, interp), c, interp);
    assert Eval(Reread(f).value, row, interp) == CompareValues(Eq, Eval(read, row, interp), c, interp);
  }

  function Abc(a: Value, b: Value, c: Value): Row {
    map["a" := a, "b" := b, "c" := c]
  }

  lemma AbcValues(a: Value, b: Value, c: Value, interp: Interpretation)
    ensures Eval(Column(None, "a"), Abc(a, b, c), interp) == a
    ensures Eval(Column(None, "b"), Abc(a, b, c), interp) == b
    ensures Eval(Column(None, "c"), Abc(a, b, c), interp) == c
  {
    assert "a" != "b" && "b" != "c" && "a" != "c";
  }

  /** So each of the four orderings loses a row in some filter that nests it. */
  lemma NestedOrderingLosesARow(table: string, op: Operator, interp: Interpretation)
    requires '"' !in table && op.IsComparison() && !op.Eq? && !op.NotEq?
    ensures var f := Binary(NotCompared(Column(None, "a"), op, Column(None, "b")), Eq, Column(None, "c"));
            var row := Abc(TRUE, BoolValue(op in {Gt, LtEq}), BoolValue(Narrows(op)));
            !RefilterCorrect(table, [f], map[table := [row]], interp)
  {
    var a, b, c := Column(None, "a"), Column(None, "b"), Column(None, "c");
    var row := Abc(TRUE, BoolValue(op in {Gt, LtEq}), BoolValue(Narrows(op)));
    var mounts: Mounts := map[table := [row]];
    AbcValues(TRUE, BoolValue(op in {Gt, LtEq}), BoolValue(Narrows(op)), interp);
    assert Operand(a) && Operand(b) && Operand(c);
    assert mounts[table] == [row] && row in mounts[table];
    hide RefilterCorrect, Eval, Abc, NotCompared, Operand;
    NestedExact(table, a, op, b, c, mounts, interp);
    assert Changed(a, op, b, row, interp);
  }
}
