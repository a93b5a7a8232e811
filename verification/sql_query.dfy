/** The WHERE and ON predicates of a query, and what they mean on a joined row. */
module SqlQuery {
  import opened Prelude
  import opened SqlValues

  /** A column reference; the qualifier is a table alias. */
  datatype Ref = Ref(table: Option<string>, name: string)

  datatype Operand = Column(ref: Ref) | Literal(text: string) | NullLiteral

  datatype Pred =
    | Paren(inner: Pred)
    | And(left: Pred, right: Pred)
    | Or(left: Pred, right: Pred)
    | Not(inner: Pred)
    | Is(subject: Operand, other: Operand)
    | In(subject: Operand, items: seq<Operand>)
    | BetweenP(subject: Operand, low: Operand, high: Operand)
    | LikeP(subject: Operand, pattern: Operand, negated: bool)
    | Compare(op: CmpOp, subject: Operand, other: Operand)

  /** One table's part of a joined row; Gone is the NULL-extended (or hidden) part. */
  datatype Cell = Here(row: Row) | Gone

  /** A joined row: cell 0 is the base table, cell i the right side of join i. */
  type JoinedRow = seq<Cell>

  function RowOf(c: Cell): Row { if c.Here? then c.row else map[] }

  /** The tables in scope: their aliases and the columns each of them shows. */
  datatype Scope = Scope(aliases: seq<string>, cols: seq<set<string>>)

  /** Table i, and no other one, shows column c. */
  ghost predicate OwnedBy(s: Scope, c: string, i: int) {
    0 <= i < |s.cols| && c in s.cols[i] && forall j | 0 <= j < |s.cols| && j != i :: c !in s.cols[j]
  }

  ghost predicate AliasAt(s: Scope, a: string, i: int) {
    0 <= i < |s.aliases| && s.aliases[i] == a && forall j | 0 <= j < |s.aliases| && j != i :: s.aliases[j] != a
  }

  ghost predicate RefersTo(s: Scope, ref: Ref, i: int) {
    if ref.table.Some? then AliasAt(s, ref.table.value, i) else OwnedBy(s, ref.name, i)
  }

  /** The value a reference has on a joined row; a NULL-extended table reads as NULL. */
  ghost function Lookup(s: Scope, row: JoinedRow, ref: Ref): Value {
    if exists i :: RefersTo(s, ref, i) && i < |row| then
      var i :| RefersTo(s, ref, i) && i < |row|;
      Get(RowOf(row[i]), ref.name)
    else Null
  }

  lemma LookupAt(s: Scope, row: JoinedRow, ref: Ref, i: int)
    requires RefersTo(s, ref, i) && i < |row|
    ensures Lookup(s, row, ref) == Get(RowOf(row[i]), ref.name)
  {
  }

  ghost function OperandValue(s: Scope, row: JoinedRow, x: Operand): Value {
    match x
    case Column(ref) => Lookup(s, row, ref)
    case Literal(text) => Val(text)
    case NullLiteral => Null
  }

  ghost function OperandValues(s: Scope, row: JoinedRow, xs: seq<Operand>): (r: seq<Value>)
    ensures |r| == |xs|
  {
    if xs == [] then [] else [OperandValue(s, row, xs[0])] + OperandValues(s, row, xs[1..])
  }

  /** Three-valued SQL evaluation. */
  ghost function EvalPred(o: Oracle, s: Scope, row: JoinedRow, p: Pred): Tri {
    match p
    case Paren(q) => EvalPred(o, s, row, q)
    case And(a, b) => And3(EvalPred(o, s, row, a), EvalPred(o, s, row, b))
    case Or(a, b) => Or3(EvalPred(o, s, row, a), EvalPred(o, s, row, b))
    case Not(q) => Not3(EvalPred(o, s, row, q))
    case Is(a, b) => Lift(OperandValue(s, row, a) == OperandValue(s, row, b))
    case In(a, items) => In3(OperandValue(s, row, a), OperandValues(s, row, items))
    case BetweenP(a, low, high) =>
      And3(Compare3(o, GTE, OperandValue(s, row, a), OperandValue(s, row, low)),
           Compare3(o, LTE, OperandValue(s, row, a), OperandValue(s, row, high)))
    case LikeP(a, pattern, negated) => Negate(negated, Like3(o, OperandValue(s, row, a), OperandValue(s, row, pattern)))
    case Compare(op, a, b) => Compare3(o, op, OperandValue(s, row, a), OperandValue(s, row, b))
  }

  function OperandRefs(x: Operand): seq<Ref> { if x.Column? then [x.ref] else [] }

  function OperandsRefs(xs: seq<Operand>): seq<Ref> {
    if xs == [] then [] else OperandRefs(xs[0]) + OperandsRefs(xs[1..])
  }

  /** Every column reference of a predicate. */
  function Refs(p: Pred): seq<Ref> {
    match p
    case Paren(q) => Refs(q)
    case And(a, b) => Refs(a) + Refs(b)
    case Or(a, b) => Refs(a) + Refs(b)
    case Not(q) => Refs(q)
    case Is(a, b) => OperandRefs(a) + OperandRefs(b)
    case In(a, items) => OperandRefs(a) + OperandsRefs(items)
    case BetweenP(a, low, high) => OperandRefs(a) + OperandRefs(low) + OperandRefs(high)
    case LikeP(a, pattern, _) => OperandRefs(a) + OperandRefs(pattern)
    case Compare(_, a, b) => OperandRefs(a) + OperandRefs(b)
  }
}
