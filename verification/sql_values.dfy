/** SQL values, three-valued logic and the filters a draft schema can carry. */
module SqlValues {

  /** A column value. Non-null values are compared through their text. */
  datatype Value = Null | Val(text: string)

  datatype Tri = True | False | Unknown

  /** The two comparisons the source leaves to the database. */
  datatype Oracle = Oracle(less: (string, string) -> bool, like: (string, string) -> bool)

  datatype CmpOp = EQ | NEQ | GT | LT | GTE | LTE

  function Not3(a: Tri): Tri {
    match a case True => False case False => True case Unknown => Unknown
  }

  function And3(a: Tri, b: Tri): Tri {
    if a == False || b == False then False else if a == True && b == True then True else Unknown
  }

  function Or3(a: Tri, b: Tri): Tri {
    if a == True || b == True then True else if a == False && b == False then False else Unknown
  }

  function Lift(b: bool): Tri { if b then True else False }

  function Negate(neg: bool, t: Tri): Tri { if neg then Not3(t) else t }

  predicate CompareText(o: Oracle, op: CmpOp, a: string, b: string) {
    match op
    case EQ => a == b
    case NEQ => a != b
    case GT => o.less(b, a)
    case LT => o.less(a, b)
    case GTE => !o.less(a, b)
    case LTE => !o.less(b, a)
  }

  function Compare3(o: Oracle, op: CmpOp, a: Value, b: Value): Tri {
    if a.Null? || b.Null? then Unknown else Lift(CompareText(o, op, a.text, b.text))
  }

  function Like3(o: Oracle, a: Value, pattern: Value): Tri {
    if a.Null? || pattern.Null? then Unknown else Lift(o.like(a.text, pattern.text))
  }

  /** `a IN (items)`: a comparison with NULL is unknown, and unknown wins over false. */
  function In3(a: Value, items: seq<Value>): Tri {
    if items == [] then False
    else Or3(if a.Null? || items[0].Null? then Unknown else Lift(a == items[0]), In3(a, items[1..]))
  }

  /** The canonical operators of a declarative filter. */
  datatype FilterOp =
    | IsNull
    | IsNotNull
    | InList(neg: bool, values: seq<string>)
    | Between(neg: bool, low: string, high: string)
    | Like(neg: bool, pattern: string)
    | Cmp(op: CmpOp, value: string)

  /** One filter of the draft: a bare column and an operator. */
  datatype Filter = Filter(column: string, op: FilterOp)

  function FilterValue(o: Oracle, op: FilterOp, v: Value): Tri {
    match op
    case IsNull => Lift(v.Null?)
    case IsNotNull => Lift(v.Val?)
    case InList(neg, values) =>
      if v.Null? && values != [] then Unknown else Negate(neg, Lift(v.Val? && v.text in values))
    case Between(neg, low, high) =>
      if v.Null? then Unknown
      else Negate(neg, Lift(CompareText(o, GTE, v.text, low) && CompareText(o, LTE, v.text, high)))
    case Like(neg, pattern) => if v.Null? then Unknown else Negate(neg, Lift(o.like(v.text, pattern)))
    case Cmp(op, value) => if v.Null? then Unknown else Lift(CompareText(o, op, v.text, value))
  }

  type Row = map<string, Value>

  function Get(r: Row, column: string): Value {
    if column in r then r[column] else Null
  }

  /** What one table of the draft carries: `filter` and `filter_groups`. */
  datatype TableFilter = TableFilter(filters: seq<Filter>, groups: seq<seq<Filter>>)

  const NO_FILTER := TableFilter([], [])

  predicate AllHold(o: Oracle, fs: seq<Filter>, r: Row) {
    forall f | f in fs :: FilterValue(o, f.op, Get(r, f.column)) == True
  }

  /** Filters are ANDed; the non-empty groups are ORed and then ANDed with the filters. */
  predicate Accepts(o: Oracle, tf: TableFilter, r: Row) {
    && AllHold(o, tf.filters, r)
    && ((forall g | g in tf.groups :: g == []) || (exists g | g in tf.groups :: g != [] && AllHold(o, g, r)))
  }
}
