/** What a condition means on a row, in terms of the row's values alone, and that evaluating it finds just that. */
module Conditions {
  import opened Seqs
  import opened Order
  import opened SortedMap
  import opened Ast
  import opened Rows
  import opened IndexKeys
  import opened SqlState

  /** The literal stands for the value. */
  ghost predicate Spells(e: Expr, v: RowValue) {
    (e.Number? && v == Integer(e.number)) || (e.Text? && v == Words(e.text))
  }

  /** At the first place where the texts part the first one ends, or has the smaller character. */
  ghost predicate Precedes(a: string, b: string) {
    exists i :: 0 <= i <= |a| && i < |b| && a[..i] == b[..i] && (i == |a| || a[i] < b[i])
  }

  /** A smaller number, or an earlier text. */
  ghost predicate Lower(a: RowValue, b: RowValue) {
    (a.Integer? && b.Integer? && a.number < b.number) || (a.Words? && b.Words? && Precedes(a.text, b.text))
  }

  /** What the six comparisons say of two values. */
  ghost predicate Admits(op: BinaryOperator, v: RowValue, w: RowValue) {
    match op
    case Equal => v == w
    case NotEqual => v != w
    case LessThan => Lower(v, w)
    case LessThanOrEqual => Lower(v, w) || v == w
    case GreaterThan => Lower(w, v)
    case GreaterThanOrEqual => Lower(w, v) || v == w
    case _ => false
  }

  /** The condition is true of the row: both sides of AND, one side of OR, the comparison of the column with the literal. */
  ghost predicate Holds(row: map<string, RowValue>, e: Expr) {
    match e
    case Binary(left, And, right) => Holds(row, left) && Holds(row, right)
    case Binary(left, Or, right) => Holds(row, left) || Holds(row, right)
    case Binary(Identifier(column), op, right) => column in row && exists w :: Spells(right, w) && Admits(op, row[column], w)
    case _ => false
  }

  /** The column exists and the literal has the type of its value. */
  ghost predicate Comparable(row: map<string, RowValue>, column: string, right: Expr) {
    column in row && exists w :: Spells(right, w) && (w.Integer? <==> row[column].Integer?)
  }

  /** Evaluation fails: it looks at the right side only where the left one leaves the answer open. */
  ghost predicate Fails(row: map<string, RowValue>, e: Expr) {
    match e
    case Binary(left, And, right) => Fails(row, left) || (Holds(row, left) && Fails(row, right))
    case Binary(left, Or, right) => Fails(row, left) || (!Holds(row, left) && Fails(row, right))
    case Binary(Identifier(column), _, right) => !Comparable(row, column, right)
    case _ => true
  }

  /** The order of the engine is the order by the first difference. */
  lemma {:induction false} LessIsPrecedes(a: string, b: string)
    ensures Less(a, b) <==> Precedes(a, b)
  {
    if Less(a, b) {
      var i := PartingPlace(a, b);
      assert a[..i] == b[..i];
    }
    if Precedes(a, b) {
      var i :| 0 <= i <= |a| && i < |b| && a[..i] == b[..i] && (i == |a| || a[i] < b[i]);
      TakeDrop(a, i);
      TakeDrop(b, i);
      LessUnderPrefix(a[..i], a[i..], b[i..]);
    }
  }

  /** Comparing a value with a literal is an error exactly for other types, and else the comparison's own truth. */
  lemma {:induction false} ComparesExactly(op: BinaryOperator, v: RowValue, right: Expr)
    requires !op.And? && !op.Or?
    ensures CompareValues(op, v, right).Some? <==> exists w :: Spells(right, w) && (w.Integer? <==> v.Integer?)
    ensures CompareValues(op, v, right).Some? ==>
              (CompareValues(op, v, right).value <==> exists w :: Spells(right, w) && Admits(op, v, w))
  {
    hide Less, Precedes;
    if right.Number? {
      assert Spells(right, Integer(right.number));
    }
    if right.Text? {
      assert Spells(right, Words(right.text));
      if v.Words? {
        LessIsPrecedes(v.text, right.text);
        LessIsPrecedes(right.text, v.text);
        LessTotal(v.text, right.text);
        Strict();
      }
    }
  }

  /** Evaluating a condition on a row fails exactly where it must, and else says whether the condition holds. */
  lemma {:induction false} EvaluateExactly(row: Row, e: Expr)
    requires Sorted(row)
    ensures Evaluate(row, e) == if Fails(Contents(row), e) then None else Some(Holds(Contents(row), e))
  {
    hide Sorted, Contents, Find, CompareValues, Spells, Admits;
    match e
    case Binary(left, And, right) =>
      EvaluateExactly(row, left);
      EvaluateExactly(row, right);
    case Binary(left, Or, right) =>
      EvaluateExactly(row, left);
      EvaluateExactly(row, right);
    case Binary(Identifier(column), op, right) =>
      FindIsLookup(row, column);
      if column in Contents(row) {
        ComparesExactly(op, Contents(row)[column], right);
      }
    case _ =>
  }
}
