/** Mapping a nest of scalar functions over a column to a list of operations. */
module MapperSelect {
  import opened Prelude
  import opened SqlValues
  import opened Literals

  datatype ScalarFn = Upper | Lower | Trim | Abs | Ceil | Length

  /**
   * The second argument of ROUND. Of one that is computed, the mapper reads what the
   * parser calls its name: for `1 + 1` that is "1".
   */
  datatype Digits =
    | Number(text: string)
    | ColumnDigits(column: string)
    | Negated(text: string)
    | Computed(id: nat, name: string)

  /**
   * A call's extra arguments are all but the first, keywords included: the characters or
   * the side of TRIM, the scale of CEIL. A cast has its type's name and parameters, and
   * TRY_CAST is the safe one. Type names are in lower case, as they are recorded.
   */
  datatype Expr =
    | Col(name: string)
    | Call(fn: ScalarFn, arg: Expr, extra: seq<Expr>)
    | Cast(arg: Expr, typeName: string, params: seq<string>, safe: bool)
    | Round(arg: Expr, decimals: Option<Digits>)
    | Coalesce(arg: Expr, others: seq<Expr>)
    | Lit(text: string)
    | Num(text: string)
    | NullLit
    | OtherExpr(id: nat)

  datatype Op = CallOp(fn: ScalarFn) | CastOp(typeName: string) | RoundOp(digits: string) | CoalesceOp(value: string)

  /** What the database's scalar functions compute. */
  datatype Functions = Functions(
    call: (ScalarFn, Value, seq<Value>) -> Value,
    cast: (string, seq<string>, bool, Value) -> Value,
    round: (Value, Value) -> Value,
    negate: Value -> Value,
    other: (nat, Row) -> Value)

  function EvalExpr(f: Functions, row: Row, e: Expr): Value {
    match e
    case Col(name) => Get(row, name)
    case Call(fn, arg, extra) => f.call(fn, EvalExpr(f, row, arg), EvalAll(f, row, extra))
    case Cast(arg, typeName, params, safe) => f.cast(typeName, params, safe, EvalExpr(f, row, arg))
    case Round(arg, decimals) => f.round(EvalExpr(f, row, arg), EvalDigits(f, row, decimals))
    case Coalesce(arg, others) =>
      var v := EvalExpr(f, row, arg);
      if v.Val? then v else EvalFirst(f, row, others)
    case Lit(text) => Val(text)
    case Num(text) => Val(NumberText(text))
    case NullLit => Null
    case OtherExpr(id) => f.other(id, row)
  }

  function EvalDigits(f: Functions, row: Row, decimals: Option<Digits>): Value {
    match decimals
    case None => Val("0")
    case Some(Number(text)) => Val(NumberText(text))
    case Some(ColumnDigits(column)) => Get(row, column)
    case Some(Negated(text)) => f.negate(Val(text))
    case Some(Computed(id, _)) => f.other(id, row)
  }

  function EvalAll(f: Functions, row: Row, es: seq<Expr>): (r: seq<Value>)
    ensures |r| == |es|
  {
    if es == [] then [] else [EvalExpr(f, row, es[0])] + EvalAll(f, row, es[1..])
  }

  function EvalFirst(f: Functions, row: Row, es: seq<Expr>): Value {
    if es == [] then Null
    else
      var v := EvalExpr(f, row, es[0]);
      if v.Val? then v else EvalFirst(f, row, es[1..])
  }

  /** The type a recorded name is compiled to. */
  function CastTarget(typeName: string): string { if typeName == "datetime" then "timestamp" else typeName }

  predicate IsTarget(typeName: string) { CastTarget(typeName) == typeName }

  /** What an operation computes, given float(); None where it does not compile. */
  function ApplyOp(f: Functions, float: string -> Option<string>, op: Op, v: Value): Option<Value> {
    match op
    case CallOp(fn) => Some(f.call(fn, v, []))
    case CastOp(typeName) => Some(f.cast(CastTarget(typeName), [], false, v))
    case RoundOp(digits) =>
      var n := ReadInt(digits);
      if n.Some? then Some(f.round(v, Val(IntText(n.value)))) else None
    case CoalesceOp(value) => Some(if v.Val? then v else Val(Reading(float, value)))
  }

  /** The draft's reading of an operation list: left to right, starting from the column. */
  function ApplyAll(f: Functions, float: string -> Option<string>, ops: seq<Op>, v: Value): Option<Value> {
    if ops == [] then Some(v)
    else
      var w := ApplyAll(f, float, ops[..|ops| - 1], v);
      if w.None? then None else ApplyOp(f, float, ops[|ops| - 1], w.value)
  }

  /** The text the mapper reads off the second argument: a minus sign is not part of it. */
  function DigitsName(decimals: Option<Digits>): string {
    match decimals
    case None => "0"
    case Some(Number(text)) => text
    case Some(ColumnDigits(column)) => column
    case Some(Negated(text)) => text
    case Some(Computed(_, name)) => name
  }

  predicate IsLiteral(e: Expr) { e.Lit? || e.Num? }

  /** One link of the chain: its operation and what it is applied to. */
  function Link(e: Expr): Option<(Op, Expr)> {
    match e
    case Call(fn, arg, _) => Some((CallOp(fn), arg))
    case Cast(arg, typeName, _, _) => Some((CastOp(typeName), arg))
    case Round(arg, decimals) => Some((RoundOp(DigitsName(decimals)), arg))
    case Coalesce(arg, others) =>
      if |others| == 1 && IsLiteral(others[0]) then Some((CoalesceOp(others[0].text), arg)) else None
    case _ => None
  }

  /** The column at the bottom and the operations above it, innermost first. */
  function ChainOf(e: Expr): Option<(string, seq<Op>)>
    decreases e
  {
    if e.Col? then Some((e.name, []))
    else
      match Link(e)
      case None => None
      case Some((op, arg)) =>
        match ChainOf(arg)
        case None => None
        case Some((column, ops)) => Some((column, ops + [op]))
  }

  /** A column under functions, casts, ROUND, and COALESCE with one literal. */
  predicate IsChain(e: Expr) {
    match e
    case Col(_) => true
    case Call(_, arg, _) => IsChain(arg)
    case Cast(arg, _, _, _) => IsChain(arg)
    case Round(arg, _) => IsChain(arg)
    case Coalesce(arg, others) => |others| == 1 && (others[0].Lit? || others[0].Num?) && IsChain(arg)
    case _ => false
  }

  lemma {:induction false} ChainExactly(e: Expr)
    ensures ChainOf(e).Some? <==> IsChain(e)
    decreases e
  {
    if !e.Col? && Link(e).Some? { ChainExactly(Link(e).value.1); }
  }

  function Reversed(s: seq<Op>): seq<Op> {
    if s == [] then [] else Reversed(s[1..]) + [s[0]]
  }

  lemma {:induction false} ReversedSnoc(s: seq<Op>, x: Op)
    ensures Reversed(s + [x]) == [x] + Reversed(s)
  {
    if s != [] {
      assert (s + [x])[1..] == s[1..] + [x];
      ReversedSnoc(s[1..], x);
    }
  }

  /** A chain found so far, with the operations collected above it. */
  function Above(chain: Option<(string, seq<Op>)>, ops: seq<Op>): Option<(string, seq<Op>)> {
    if chain.None? then None else Some((chain.value.0, chain.value.1 + Reversed(ops)))
  }

  lemma NothingAbove(chain: Option<(string, seq<Op>)>)
    ensures Above(chain, []) == chain
  {
    if chain.Some? { assert chain.value.1 + [] == chain.value.1; }
  }

  lemma OneMoreAbove(node: Expr, ops: seq<Op>)
    requires Link(node).Some?
    ensures Above(ChainOf(node), ops) == Above(ChainOf(Link(node).value.1), ops + [Link(node).value.0])
  {
    var (op, arg) := Link(node).value;
    ReversedSnoc(ops, op);
    if ChainOf(arg).Some? {
      var inner := ChainOf(arg).value.1;
      assert (inner + [op]) + Reversed(ops) == inner + ([op] + Reversed(ops));
    }
  }

  /** The walk collects operations from the outside in and reverses them at the column. */
  method MapScalarChain(expr: Expr) returns (r: Option<(string, seq<Op>)>)
    ensures r == ChainOf(expr)
    ensures r.Some? <==> IsChain(expr)
  {
    ChainExactly(expr);
    var ops: seq<Op> := [];
    var node := expr;
    NothingAbove(ChainOf(expr));
    while true
      invariant ChainOf(expr) == Above(ChainOf(node), ops)
      decreases node
    {
      if Link(node).Some? { OneMoreAbove(node, ops); }
      match node {
        case Col(name) =>
          assert [] + Reversed(ops) == Reversed(ops);
          return Some((name, Reversed(ops)));
        case Call(fn, arg, _) =>
          ops, node := ops + [CallOp(fn)], arg;
        case Cast(arg, typeName, _, _) =>
          ops, node := ops + [CastOp(typeName)], arg;
        case Round(arg, decimals) =>
          ops, node := ops + [RoundOp(DigitsName(decimals))], arg;
        case Coalesce(arg, others) =>
          if |others| != 1 || !IsLiteral(others[0]) { return None; }
          ops, node := ops + [CoalesceOp(others[0].text)], arg;
        case _ =>
          return None;
      }
    }
  }

  /** What a literal stands for, as text. */
  function LiteralText(e: Expr): string
    requires IsLiteral(e)
  {
    if e.Num? then NumberText(e.text) else e.text
  }

  /** The link of a function or cast says all there is to it. */
  predicate PlainFunction(e: Expr) {
    match e
    case Call(_, _, extra) => extra == []
    case Cast(_, typeName, params, safe) => params == [] && !safe && typeName != "datetime"
    case Round(_, None) => true
    case Round(_, Some(Number(text))) => ReadInt(text).Some?
    case Round(_, _) => false
    case _ => true
  }

  /** The literal of a COALESCE is read back as another one, and the value before it may be NULL. */
  predicate LosesLiteral(float: string -> Option<string>, e: Expr) {
    && e.Coalesce? && !e.arg.Coalesce? && |e.others| == 1 && IsLiteral(e.others[0])
    && Reading(float, e.others[0].text) != LiteralText(e.others[0])
  }

  /** Every function and cast of the chain is plain. */
  predicate PlainFunctions(e: Expr) {
    PlainFunction(e) &&
    match e
    case Call(_, arg, _) => PlainFunctions(arg)
    case Cast(arg, _, _, _) => PlainFunctions(arg)
    case Coalesce(arg, _) => PlainFunctions(arg)
    case Round(arg, _) => PlainFunctions(arg)
    case _ => true
  }

  /** No literal of the chain is lost. */
  predicate KeepsLiterals(float: string -> Option<string>, e: Expr) {
    !LosesLiteral(float, e) &&
    match e
    case Call(_, arg, _) => KeepsLiterals(float, arg)
    case Cast(arg, _, _, _) => KeepsLiterals(float, arg)
    case Coalesce(arg, _) => KeepsLiterals(float, arg)
    case Round(arg, _) => KeepsLiterals(float, arg)
    case _ => true
  }

  /**
   * No cast to a type with parameters or to DATETIME and no TRY_CAST, no digits but an
   * integer, no extra arguments, and every literal that can be reached is its own reading.
   */
  predicate Plain(float: string -> Option<string>, e: Expr) { PlainFunctions(e) && KeepsLiterals(float, e) }

  lemma ApplyOneMore(f: Functions, float: string -> Option<string>, ops: seq<Op>, op: Op, v: Value)
    ensures var w := ApplyAll(f, float, ops, v);
            ApplyAll(f, float, ops + [op], v) == if w.None? then None else ApplyOp(f, float, op, w.value)
  {
    assert (ops + [op])[..|ops|] == ops;
  }

  /** A COALESCE with a literal is never NULL. */
  lemma CoalesceHasValue(f: Functions, row: Row, e: Expr)
    requires e.Coalesce? && Link(e).Some?
    ensures EvalFirst(f, row, e.others) == Val(LiteralText(e.others[0])) && EvalExpr(f, row, e).Val?
  {
  }

  lemma LinkMeaning(f: Functions, float: string -> Option<string>, row: Row, e: Expr)
    requires Link(e).Some? && PlainFunction(e) && !LosesLiteral(float, e)
    requires e.Coalesce? && e.arg.Coalesce? ==> Link(e.arg).Some?
    ensures ApplyOp(f, float, Link(e).value.0, EvalExpr(f, row, Link(e).value.1)) == Some(EvalExpr(f, row, e))
  {
    if e.Coalesce? {
      CoalesceHasValue(f, row, e);
      if e.arg.Coalesce? { CoalesceHasValue(f, row, e.arg); }
    }
    PrintedIntReads(0);
  }

  lemma {:induction false} ChainKeepsValue(f: Functions, float: string -> Option<string>, row: Row, e: Expr)
    requires ChainOf(e).Some? && Plain(float, e)
    ensures ApplyAll(f, float, ChainOf(e).value.1, Get(row, ChainOf(e).value.0)) == Some(EvalExpr(f, row, e))
    decreases e
  {
    if !e.Col? {
      var (op, arg) := Link(e).value;
      ChainKeepsValue(f, float, row, arg);
      ApplyOneMore(f, float, ChainOf(arg).value.1, op, Get(row, ChainOf(e).value.0));
      LinkMeaning(f, float, row, e);
    }
  }

  // ---- a reading of the functions that shows what a chain loses ----

  function Mark(v: Value, plain: bool): Value { if v.Val? && !plain then Val(v.text + "x") else v }

  /** The print of an integer. */
  predicate IsPrinted(text: string) { ReadInt(text).Some? && IntText(ReadInt(text).value) == text }

  function MarkCast(typeName: string, params: seq<string>, safe: bool, v: Value): Value {
    Mark(v, params == [] && !safe && IsTarget(typeName))
  }

  /** Whatever the chain does not record leaves a mark. */
  const MARKING := Functions(
    (fn, v, extra) => Mark(v, extra == []),
    MarkCast,
    (v: Value, d: Value) => Mark(v, d.Val? && IsPrinted(d.text)),
    (v: Value) => Val("x"),
    (id: nat, row: Row) => Val("x"))

  /** The columns the chain reads. */
  function Columns(e: Expr): set<string> {
    match e
    case Col(name) => {name}
    case Call(_, arg, _) => Columns(arg)
    case Cast(arg, _, _, _) => Columns(arg)
    case Coalesce(arg, _) => Columns(arg)
    case Round(arg, Some(ColumnDigits(column))) => Columns(arg) + {column}
    case Round(arg, _) => Columns(arg)
    case _ => {}
  }

  /** The mapped value v, if there is one, and the expression's w: longer if there is more to it than the chain says. */
  predicate Marked(v: Option<Value>, w: Value, plain: bool) {
    v.Some? ==> v.value.Val? && w.Val? && |v.value.text| <= |w.text| && (!plain ==> |v.value.text| < |w.text|)
  }

  lemma MarkedDigits(row: Row, d: Option<Digits>)
    requires d.Some? && d.value.ColumnDigits? ==> Get(row, d.value.column) == Val("x")
    ensures var v := EvalDigits(MARKING, row, d);
            v.Val? && (IsPrinted(v.text) <==> d.None? || (d.value.Number? && ReadInt(d.value.text).Some?))
  {
    NothingStripped("x");
    assert WithoutUnderscores("x") == "x" && "x"[..0] == "" by { assert "x"[1..] == ""; }
    assert ReadDigits("x").None?;
    PrintedIntReads(0);
    assert IntText(0) == "0";
    if d.Some? && d.value.Number? && ReadInt(d.value.text).Some? { PrintedIntReads(ReadInt(d.value.text).value); }
  }

  /** A recorded operation leaves no mark. */
  lemma OpLeavesNoMark(float: string -> Option<string>, op: Op, v: Value)
    requires v.Val?
    ensures var w := ApplyOp(MARKING, float, op, v); w.None? || w == Some(v)
  {
    match op
    case RoundOp(digits) =>
      if ReadInt(digits).Some? {
        PrintedIntReads(ReadInt(digits).value);
        assert IsPrinted(IntText(ReadInt(digits).value));
      }
    case CastOp(typeName) =>
      assert IsTarget(CastTarget(typeName));
      assert MarkCast(CastTarget(typeName), [], false, v) == v;
    case _ =>
  }

  lemma LinkLeavesMark(row: Row, e: Expr)
    requires Link(e).Some? && forall c | c in Columns(e) :: Get(row, c) == Val("x")
    requires EvalExpr(MARKING, row, Link(e).value.1).Val?
    ensures EvalExpr(MARKING, row, e) == Mark(EvalExpr(MARKING, row, Link(e).value.1), PlainFunction(e))
  {
    match e
    case Call(_, _, extra) => assert EvalAll(MARKING, row, extra) == [] <==> extra == [];
    case Round(_, decimals) =>
      if decimals.Some? && decimals.value.ColumnDigits? { assert decimals.value.column in Columns(e); }
      MarkedDigits(row, decimals);
    case _ =>
  }

  lemma MarkingStep(float: string -> Option<string>, row: Row, e: Expr, v: Option<Value>)
    requires Link(e).Some? && forall c | c in Columns(e) :: Get(row, c) == Val("x")
    requires var arg := Link(e).value.1;
             Marked(v, EvalExpr(MARKING, row, arg), PlainFunctions(arg)) && EvalExpr(MARKING, row, arg).Val?
    ensures EvalExpr(MARKING, row, e).Val?
    ensures Marked(if v.None? then None else ApplyOp(MARKING, float, Link(e).value.0, v.value),
                   EvalExpr(MARKING, row, e), PlainFunctions(e))
  {
    LinkLeavesMark(row, e);
    if v.Some? { OpLeavesNoMark(float, Link(e).value.0, v.value); }
  }

  lemma {:induction false} MarkingTellsApart(float: string -> Option<string>, row: Row, e: Expr)
    requires ChainOf(e).Some? && forall c | c in Columns(e) :: Get(row, c) == Val("x")
    ensures EvalExpr(MARKING, row, e).Val?
    ensures Marked(ApplyAll(MARKING, float, ChainOf(e).value.1, Get(row, ChainOf(e).value.0)),
                   EvalExpr(MARKING, row, e), PlainFunctions(e))
    decreases e
  {
    if e.Col? {
      assert e.name in Columns(e);
    } else {
      var (op, arg) := Link(e).value;
      MarkingTellsApart(float, row, arg);
      ApplyOneMore(MARKING, float, ChainOf(arg).value.1, op, Get(row, ChainOf(e).value.0));
      MarkingStep(float, row, e, ApplyAll(MARKING, float, ChainOf(arg).value.1, Get(row, ChainOf(e).value.0)));
    }
  }

  // ---- a reading of the functions that shows a lost literal ----

  function Only(t: string, v: Value): Value { if v == Val(t) then v else Null }

  /** Every function gives NULL, but for the text t. */
  function Keeping(t: string): Functions {
    Functions(
      (fn, v, extra) => Only(t, v),
      (typeName, params, safe, v) => Only(t, v),
      (v: Value, d: Value) => Only(t, v),
      (v: Value) => Null,
      (id: nat, row: Row) => Null)
  }

  /** On NULL columns the draft never comes to a text that is not its own reading. */
  lemma {:induction false} DraftNeverGives(float: string -> Option<string>, t: string, ops: seq<Op>)
    requires Settled(float) && Reading(float, t) != t
    ensures ApplyAll(Keeping(t), float, ops, Null) != Some(Val(t))
    decreases |ops|
  {
    if ops != [] {
      var op := ops[|ops| - 1];
      DraftNeverGives(float, t, ops[..|ops| - 1]);
      if op.CoalesceOp? { ReadingSettles(float, op.value); }
    }
  }

  /** A literal that is lost is not its own reading. */
  lemma LostIsNotItself(float: string -> Option<string>, e: Expr)
    requires LosesLiteral(float, e)
    ensures Reading(float, LiteralText(e.others[0])) != LiteralText(e.others[0])
  {
    var x := e.others[0];
    if x.Num? && '.' in x.text { PointIsNoInt(x.text); }
  }

  /** The outermost literal that is lost. */
  function Lost(float: string -> Option<string>, e: Expr): string
    requires ChainOf(e).Some? && !KeepsLiterals(float, e)
    decreases e
  {
    if LosesLiteral(float, e) then LiteralText(e.others[0]) else Lost(float, Link(e).value.1)
  }

  lemma {:induction false} LostReadsOtherwise(float: string -> Option<string>, e: Expr)
    requires ChainOf(e).Some? && !KeepsLiterals(float, e)
    ensures Reading(float, Lost(float, e)) != Lost(float, e)
    decreases e
  {
    if LosesLiteral(float, e) { LostIsNotItself(float, e); } else { LostReadsOtherwise(float, Link(e).value.1); }
  }

  /** What reaches a literal that is lost is NULL or the literal's own text. */
  lemma ReachedByNull(t: string, e: Expr)
    requires ChainOf(e).Some? && !e.Coalesce?
    ensures EvalExpr(Keeping(t), map[], e) == Null || EvalExpr(Keeping(t), map[], e) == Val(t)
  {
  }

  lemma {:induction false} QueryGives(float: string -> Option<string>, e: Expr)
    requires ChainOf(e).Some? && !KeepsLiterals(float, e)
    ensures EvalExpr(Keeping(Lost(float, e)), map[], e) == Val(Lost(float, e))
    decreases e
  {
    var f := Keeping(Lost(float, e));
    if LosesLiteral(float, e) {
      ReachedByNull(Lost(float, e), e.arg);
      CoalesceHasValue(f, map[], e);
    } else {
      QueryGives(float, Link(e).value.1);
    }
  }

  // ---- the theorem ----

  ghost predicate ValueKept(float: string -> Option<string>, e: Expr)
    requires ChainOf(e).Some?
  {
    forall f: Functions, row: Row ::
      ApplyAll(f, float, ChainOf(e).value.1, Get(row, ChainOf(e).value.0)) == Some(EvalExpr(f, row, e))
  }

  /**
   * The mapped chain compiles to the value of the expression, for every row and every
   * meaning of the functions, exactly when every cast is a plain one to a bare type other
   * than DATETIME, every ROUND has no digits or an integer, no function has an extra
   * argument, and no COALESCE that can be reached has a literal read back as another one.
   */
  lemma ScalarChainExactly(float: string -> Option<string>, e: Expr)
    requires ChainOf(e).Some? && Settled(float)
    ensures ValueKept(float, e) <==> Plain(float, e)
  {
    var (column, ops) := ChainOf(e).value;
    if Plain(float, e) {
      forall f: Functions, row: Row ensures ApplyAll(f, float, ops, Get(row, column)) == Some(EvalExpr(f, row, e)) {
        ChainKeepsValue(f, float, row, e);
      }
    } else if !PlainFunctions(e) {
      var row: Row := map c | c in Columns(e) :: Val("x");
      MarkingTellsApart(float, row, e);
    } else {
      var row: Row := map[];
      QueryGives(float, e);
      LostReadsOtherwise(float, e);
      DraftNeverGives(float, Lost(float, e), ops);
      assert ApplyAll(Keeping(Lost(float, e)), float, ops, Get(row, column)) != Some(EvalExpr(Keeping(Lost(float, e)), row, e));
    }
  }

  /** `ROUND(x, -2)` is recorded as round:2. */
  lemma LostSign(float: string -> Option<string>, x: string)
    requires Settled(float)
    ensures var e := Round(Col(x), Some(Negated("2"))); ChainOf(e) == Some((x, [RoundOp("2")])) && !ValueKept(float, e)
  {
    var e := Round(Col(x), Some(Negated("2")));
    assert [] + [RoundOp("2")] == [RoundOp("2")];
    ScalarChainExactly(float, e);
  }

  /** `CAST(x AS DECIMAL(10, 2))` is recorded as cast:decimal. */
  lemma LostParameters(float: string -> Option<string>, x: string)
    requires Settled(float)
    ensures var e := Cast(Col(x), "decimal", ["10", "2"], false);
            ChainOf(e) == Some((x, [CastOp("decimal")])) && !ValueKept(float, e)
  {
    var e := Cast(Col(x), "decimal", ["10", "2"], false);
    assert [] + [CastOp("decimal")] == [CastOp("decimal")];
    ScalarChainExactly(float, e);
  }

  /** `COALESCE(x, '00000')` is recorded as coalesce:00000 and compiled to the number 0. */
  lemma LostLiteral(float: string -> Option<string>, x: string)
    requires Settled(float)
    ensures var e := Coalesce(Col(x), [Lit("00000")]);
            ChainOf(e) == Some((x, [CoalesceOp("00000")])) && Reading(float, "00000") == "0" && !ValueKept(float, e)
  {
    var e := Coalesce(Col(x), [Lit("00000")]);
    ZerosRead();
    assert LosesLiteral(float, e);
    ScalarChainExactly(float, e);
  }

  /** `CAST(x AS DATETIME)` is compiled to a cast to TIMESTAMP. */
  lemma LostDatetime(float: string -> Option<string>, x: string)
    requires Settled(float)
    ensures var e := Cast(Col(x), "datetime", [], false);
            ChainOf(e) == Some((x, [CastOp("datetime")])) && !ValueKept(float, e)
  {
    var e := Cast(Col(x), "datetime", [], false);
    assert [] + [CastOp("datetime")] == [CastOp("datetime")];
    ScalarChainExactly(float, e);
  }
}
