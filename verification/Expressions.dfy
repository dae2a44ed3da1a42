/** Expressions and their evaluation on one row. */
module Expressions {
  import opened ByteStrings
  import opened Values
  import opened Columns
  import Like

  datatype BinaryOp =
    | Eq | Ne | Lt | Gt | Le | Ge | And | Or
    | Plus | Minus | Div | Mod | Mul | LikeOp | Distance

  datatype UnaryOp = Neg | Not

  datatype Lit = NullLit | IntLit(n: int) | FloatLit(x: real) | StringLit(s: Bytes) | BoolLit(b: bool)

  datatype Expr =
    | Literal(lit: Lit)
    | Column(table: Option<Bytes>, column: Bytes)
    | Star
    | QualifiedStar(owner: Bytes)
    | Unary(uop: UnaryOp, expr: Expr)
    | Binary(op: BinaryOp, left: Expr, right: Expr)
    | IsNull(expr: Expr, negated: bool)
    | InList(expr: Expr, values: seq<Expr>, negated: bool)
    | InSubquery(expr: Expr, query: nat, negated: bool)
    | Between(expr: Expr, low: Expr, high: Expr, negated: bool)
    | Paren(expr: Expr)
    | Cast(expr: Expr, dataType: Bytes)
    | Function(name: Bytes, args: seq<Expr>)
    | Parameter(index: nat)
    | CurrentUser

  function LitValue(lit: Lit): Value {
    match lit
    case NullLit => Null
    case IntLit(n) => Integer(n)
    case FloatLit(x) => Float(x)
    case StringLit(s) => Text(s)
    case BoolLit(b) => Bool(b)
  }

  function EvalColumn(table: Option<Bytes>, column: Bytes, row: Row): Result<Value> {
    if table.Some? then
      var qual := Qualify(table.value, column);
      match Lookup(row, qual)
      case Some(v) => Ok(v)
      case None => match Lookup(row, column) case Some(v) => Ok(v) case None => Err(UnknownColumn(qual))
    else
      match Lookup(row, column)
      case Some(v) => Ok(v)
      case None =>
        var found := SuffixMatches(row, column);
        if |found| == 1 then Ok(found[0]) else Err(UnknownColumn(column))
  }

  function Numeric(env: Env, v: Value): Option<real> {
    match v
    case Integer(n) => Some(n as real)
    case Float(x) => Some(x)
    case Bool(b) => Some(if b then 1.0 else 0.0)
    case Text(t) => env.number(t)
    case Null => None
  }

  function Arithmetic(env: Env, op: BinaryOp, l: Value, r: Value): Result<Value> {
    if l.Null? || r.Null? then Ok(Null)
    else match (Numeric(env, l), Numeric(env, r))
      case (None, _) => Err(TypeMismatch("arithmetic", [l]))
      case (_, None) => Err(TypeMismatch("arithmetic", [r]))
      case (Some(a), Some(b)) => match op
        case Plus => Ok(Float(a + b))
        case Minus => Ok(Float(a - b))
        case Mul => Ok(Float(a * b))
        case Div => if b == 0.0 then Err(TypeMismatch("division by zero", [])) else Ok(Float(a / b))
        case Mod => if b == 0.0 then Err(TypeMismatch("modulo by zero", [])) else Ok(Float(env.remainder(a, b)))
        case _ => Err(UnsupportedExpr)
  }

  function CompareNumbers(a: real, b: real, op: BinaryOp): bool {
    match op case Lt => a < b case Gt => a > b case Le => a <= b case Ge => a >= b case _ => false
  }

  function CompareBytes(a: Bytes, b: Bytes, op: BinaryOp): bool {
    match op case Lt => Less(a, b) case Gt => Less(b, a) case Le => Leq(a, b) case Ge => Leq(b, a) case _ => false
  }

  function CompareValues(env: Env, l: Value, r: Value, op: BinaryOp): Result<bool> {
    if l.Null? || r.Null? then Ok(false)
    else match (Numeric(env, l), Numeric(env, r))
      case (Some(a), Some(b)) => Ok(CompareNumbers(a, b, op))
      case _ =>
        if l.Text? && r.Text? then Ok(CompareBytes(l.bytes, r.bytes, op))
        else Err(TypeMismatch("incompatible types in comparison", []))
  }

  function LikeValues(env: Env, l: Value, r: Value): bool {
    l.Text? && r.Text? && Like.PrefixMatch(env.chars(l.bytes), env.chars(r.bytes))
  }

  function Negate(v: Value): Result<Value> {
    match v
    case Integer(n) => Ok(Integer(-n))
    case Float(x) => Ok(Float(-x))
    case Null => Ok(Null)
    case _ => Err(TypeMismatch("unary minus", [v]))
  }

  function Invert(v: Value): Result<Value> {
    match v
    case Bool(b) => Ok(Bool(!b))
    case Null => Ok(Null)
    case _ => Err(TypeMismatch("NOT", [v]))
  }

  function EqValue(eq: Option<bool>, same: bool): Value {
    if eq.None? then Null else Bool(eq.value == same)
  }

  /** Operators whose operands are both evaluated first. */
  function Strict(env: Env, op: BinaryOp, l: Value, r: Value): Result<Value> {
    match op
    case Eq => Ok(EqValue(SqlEq(env, l, r), true))
    case Ne => Ok(EqValue(SqlEq(env, l, r), false))
    case LikeOp => Ok(Bool(LikeValues(env, l, r)))
    case Distance => (match env.distance(l, r) case Ok(d) => Ok(Float(d)) case Err(e) => Err(e))
    case _ =>
      if op in {Lt, Gt, Le, Ge} then (match CompareValues(env, l, r, op) case Ok(b) => Ok(Bool(b)) case Err(e) => Err(e))
      else Arithmetic(env, op, l, r)
  }

  predicate SqlNull(v: Value) {
    v.Null? || v == Text([])
  }

  function AsciiUpper(s: Bytes): Bytes {
    seq(|s|, i requires 0 <= i < |s| => if 97 <= s[i] <= 122 then s[i] - 32 else s[i])
  }

  const UPPER: Bytes := [85, 80, 80, 69, 82]
  const LOWER: Bytes := [76, 79, 87, 69, 82]
  const LENGTH: Bytes := [76, 69, 78, 71, 84, 72]
  const TRIM: Bytes := [84, 82, 73, 77]
  const COALESCE: Bytes := [67, 79, 65, 76, 69, 83, 67, 69]
  const ABS: Bytes := [65, 66, 83]
  const ROUND: Bytes := [82, 79, 85, 78, 68]

  function TextUnary(v: Value, f: Bytes -> Bytes): Result<Value> {
    match v
    case Null => Ok(Null)
    case Text(t) => Ok(Text(f(t)))
    case _ => Err(TypeMismatch("expected text argument", []))
  }

  /** Scalar functions of one evaluated argument. */
  function Scalar(env: Env, name: Bytes, v: Value): Result<Value> {
    if name == UPPER then TextUnary(v, env.upper)
    else if name == LOWER then TextUnary(v, env.lower)
    else if name == TRIM then TextUnary(v, env.trim)
    else if name == LENGTH then
      match v
      case Null => Ok(Null)
      case Text(t) => Ok(Integer(|env.chars(t)|))
      case _ => Err(TypeMismatch("LENGTH expects text", []))
    else if name == ABS then
      match v
      case Null => Ok(Null)
      case Integer(n) => Ok(Integer(if n < 0 then -n else n))
      case Float(x) => Ok(Float(if x < 0.0 then -x else x))
      case _ => Err(TypeMismatch("ABS expects numeric", [v]))
    else
      match v
      case Null => Ok(Null)
      case Integer(n) => Ok(Integer(n))
      case Float(x) => Ok(Float(env.round(x)))
      case Text(t) =>
        (match env.number(t) case Some(x) => Ok(Float(env.round(x))) case None => Err(TypeMismatch("ROUND expects numeric", [])))
      case _ => Err(TypeMismatch("ROUND expects numeric", [v]))
  }

  function Eval(env: Env, e: Expr, row: Row): Result<Value>
    decreases e, 1
  {
    match e
    case Literal(lit) => Ok(LitValue(lit))
    case Column(t, c) => EvalColumn(t, c, row)
    case Unary(op, x) => (
      match Eval(env, x, row)
      case Err(err) => Err(err)
      case Ok(v) => if op == Not then Invert(v) else Negate(v))
    case Binary(op, l, r) => (
      match Eval(env, l, row)
      case Err(err) => Err(err)
      case Ok(lv) =>
        if op == And then
          match lv
          case Bool(false) => Ok(Bool(false))
          case Bool(true) => Eval(env, r, row)
          case Null => (match Eval(env, r, row)
                        case Err(err) => Err(err)
                        case Ok(rv) => Ok(if rv == Bool(false) then Bool(false) else Null))
          case _ => Err(TypeMismatch("AND", [lv]))
        else if op == Or then
          match lv
          case Bool(true) => Ok(Bool(true))
          case Bool(false) => Eval(env, r, row)
          case Null => (match Eval(env, r, row)
                        case Err(err) => Err(err)
                        case Ok(rv) => Ok(if rv == Bool(true) then Bool(true) else Null))
          case _ => Err(TypeMismatch("OR", [lv]))
        else
          match Eval(env, r, row)
          case Err(err) => Err(err)
          case Ok(rv) => Strict(env, op, lv, rv))
    case IsNull(x, negated) => (
      match Eval(env, x, row)
      case Err(err) => Err(err)
      case Ok(v) => Ok(Bool(SqlNull(v) != negated)))
    case InList(x, values, negated) => (
      match Eval(env, x, row)
      case Err(err) => Err(err)
      case Ok(v) => match InAny(env, v, values, row)
        case Err(err) => Err(err)
        case Ok(found) => Ok(Bool(found != negated)))
    case Between(x, low, high, negated) => (
      match Eval(env, x, row)
      case Err(err) => Err(err)
      case Ok(v) => match Eval(env, low, row)
        case Err(err) => Err(err)
        case Ok(lo) => match Eval(env, high, row)
          case Err(err) => Err(err)
          case Ok(hi) =>
            if v.Null? || lo.Null? || hi.Null? then Ok(Bool(false))
            else match (CompareValues(env, v, lo, Ge), CompareValues(env, v, hi, Le))
              case (Err(err), _) => Err(err)
              case (_, Err(err)) => Err(err)
              case (Ok(ge), Ok(le)) => Ok(Bool((ge && le) != negated)))
    case Paren(x) => Eval(env, x, row)
    case Cast(x, ty) => (match Eval(env, x, row) case Err(err) => Err(err) case Ok(v) => env.cast(v, ty))
    case Function(name, args) => (
      var f := AsciiUpper(name);
      if f == COALESCE then FirstNonNull(env, args, row)
      else if f !in {UPPER, LOWER, LENGTH, TRIM, ABS, ROUND} then Err(UnsupportedExpr)
      else if args == [] then Err(Panic)
      else match Eval(env, args[0], row) case Err(err) => Err(err) case Ok(v) => Scalar(env, f, v))
    case _ => Err(UnsupportedExpr)
  }

  /** `IN (…)`: candidates in order until one is equal; literals and parameters see no row. */
  function InAny(env: Env, v: Value, values: seq<Expr>, row: Row): Result<bool>
    decreases values, 0
  {
    if values == [] then Ok(false)
    else
      var x := values[0];
      match Eval(env, x, if x.Literal? || x.Parameter? then [] else row)
      case Err(err) => Err(err)
      case Ok(c) => if SqlEq(env, v, c) == Some(true) then Ok(true) else InAny(env, v, values[1..], row)
  }

  function FirstNonNull(env: Env, args: seq<Expr>, row: Row): Result<Value>
    decreases args, 0
  {
    if args == [] then Ok(Null)
    else match Eval(env, args[0], row)
      case Err(err) => Err(err)
      case Ok(v) => if v.Null? then FirstNonNull(env, args[1..], row) else Ok(v)
  }

  /** A WHERE predicate: NULL counts as false, any other value is an error. */
  function EvalPredicate(env: Env, e: Expr, row: Row): Result<bool> {
    match Eval(env, e, row)
    case Err(err) => Err(err)
    case Ok(Bool(b)) => Ok(b)
    case Ok(Null) => Ok(false)
    case Ok(v) => Err(TypeMismatch("expected boolean predicate", [v]))
  }

  // ----- filtering rows -----

  /** Keep the rows on which the predicate is true; the first evaluation error is the result. */
  function FilterRows(env: Env, rows: seq<Row>, pred: Expr): Result<seq<Row>> {
    if rows == [] then Ok([])
    else
      var n := |rows| - 1;
      match FilterRows(env, rows[..n], pred)
      case Err(e) => Err(e)
      case Ok(kept) => match EvalPredicate(env, pred, rows[n])
        case Err(e) => Err(e)
        case Ok(keep) => Ok(if keep then kept + [rows[n]] else kept)
  }

  /** WHERE, when there is one. */
  function FilterWhere(env: Env, rows: seq<Row>, where: Option<Expr>): Result<seq<Row>> {
    if where.None? then Ok(rows) else FilterRows(env, rows, where.value)
  }

  // ----- which columns an expression can read -----

  function ColumnName(table: Option<Bytes>, column: Bytes): Bytes {
    if table.Some? then Qualify(table.value, column) else column
  }

  /** Every column reference in the expression. */
  function AllColumns(e: Expr): seq<Bytes>
    decreases e, 1
  {
    match e
    case Column(t, c) => [ColumnName(t, c)]
    case Unary(_, x) => AllColumns(x)
    case Binary(_, l, r) => AllColumns(l) + AllColumns(r)
    case IsNull(x, _) => AllColumns(x)
    case InList(x, values, _) => AllColumns(x) + AllColumnsOf(values)
    case Between(x, low, high, _) => AllColumns(x) + AllColumns(low) + AllColumns(high)
    case Paren(x) => AllColumns(x)
    case Cast(x, _) => AllColumns(x)
    case Function(_, args) => AllColumnsOf(args)
    case _ => []
  }

  function AllColumnsOf(es: seq<Expr>): seq<Bytes>
    decreases es, 0
  {
    if es == [] then [] else AllColumns(es[0]) + AllColumnsOf(es[1..])
  }

  /** The bare names of some column references all lie in a set. */
  predicate Covers(bares: set<Bytes>, columns: seq<Bytes>) {
    forall i :: 0 <= i < |columns| ==> Bare(columns[i]) in bares
  }

  lemma CoversAppend(bares: set<Bytes>, a: seq<Bytes>, b: seq<Bytes>)
    ensures Covers(bares, a + b) <==> Covers(bares, a) && Covers(bares, b)
  {
    if Covers(bares, a + b) {
      assert forall i :: 0 <= i < |a| ==> (a + b)[i] == a[i];
      assert forall i :: 0 <= i < |b| ==> (a + b)[|a| + i] == b[i];
    }
  }

  lemma {:induction false} BareColumnName(table: Option<Bytes>, column: Bytes)
    ensures Bare(ColumnName(table, column)) == Bare(column)
  {
    if table.Some? {
      BareAfterDot(table.value, column);
    }
  }

  lemma {:induction false} BareAfterDot(table: Bytes, column: Bytes)
    ensures Bare(Qualify(table, column)) == Bare(column)
  {
    var q := Qualify(table, column);
    assert q[|table|] == DOT;
    if table == [] {
      assert q[1..] == column;
    } else {
      assert q[1..] == Qualify(table[1..], column);
      assert q[1..][|table| - 1] == DOT;
      BareAfterDot(table[1..], column);
    }
  }

  lemma EvalColumnLocal(table: Option<Bytes>, column: Bytes, row: Row, bares: set<Bytes>)
    requires Bare(ColumnName(table, column)) in bares
    ensures EvalColumn(table, column, KeepBare(row, bares)) == EvalColumn(table, column, row)
  {
    BareColumnName(table, column);
    KeepLookup(row, bares, column);
    KeepSuffixMatches(row, bares, column);
    if table.Some? { KeepLookup(row, bares, Qualify(table.value, column)); }
  }

  /** Evaluation depends only on the fields whose bare name the expression mentions. */
  lemma {:induction false} EvalLocal(env: Env, e: Expr, row: Row, bares: set<Bytes>)
    requires Covers(bares, AllColumns(e))
    ensures Eval(env, e, KeepBare(row, bares)) == Eval(env, e, row)
    decreases e, 1
  {
    match e
    case Column(t, c) =>
      assert AllColumns(e)[0] == ColumnName(t, c);
      EvalColumnLocal(t, c, row, bares);
    case Unary(_, x) => EvalLocal(env, x, row, bares);
    case Binary(_, l, r) =>
      CoversAppend(bares, AllColumns(l), AllColumns(r));
      EvalLocal(env, l, row, bares);
      EvalLocal(env, r, row, bares);
    case IsNull(x, _) => EvalLocal(env, x, row, bares);
    case InList(x, values, _) =>
      CoversAppend(bares, AllColumns(x), AllColumnsOf(values));
      EvalLocal(env, x, row, bares);
      if Eval(env, x, row).Ok? { InAnyLocal(env, Eval(env, x, row).value, values, row, bares); }
    case Between(x, low, high, _) =>
      CoversAppend(bares, AllColumns(x) + AllColumns(low), AllColumns(high));
      CoversAppend(bares, AllColumns(x), AllColumns(low));
      EvalLocal(env, x, row, bares);
      EvalLocal(env, low, row, bares);
      EvalLocal(env, high, row, bares);
    case Paren(x) => EvalLocal(env, x, row, bares);
    case Cast(x, _) => EvalLocal(env, x, row, bares);
    case Function(_, args) =>
      FirstNonNullLocal(env, args, row, bares);
      if args != [] {
        CoversAppend(bares, AllColumns(args[0]), AllColumnsOf(args[1..]));
        EvalLocal(env, args[0], row, bares);
      }
    case _ =>
  }

  lemma {:induction false} InAnyLocal(env: Env, v: Value, values: seq<Expr>, row: Row, bares: set<Bytes>)
    requires Covers(bares, AllColumnsOf(values))
    ensures InAny(env, v, values, KeepBare(row, bares)) == InAny(env, v, values, row)
    decreases values, 0
  {
    if values != [] {
      CoversAppend(bares, AllColumns(values[0]), AllColumnsOf(values[1..]));
      EvalLocal(env, values[0], row, bares);
      InAnyLocal(env, v, values[1..], row, bares);
    }
  }

  lemma {:induction false} FirstNonNullLocal(env: Env, args: seq<Expr>, row: Row, bares: set<Bytes>)
    requires Covers(bares, AllColumnsOf(args))
    ensures FirstNonNull(env, args, KeepBare(row, bares)) == FirstNonNull(env, args, row)
    decreases args, 0
  {
    if args != [] {
      CoversAppend(bares, AllColumns(args[0]), AllColumnsOf(args[1..]));
      EvalLocal(env, args[0], row, bares);
      FirstNonNullLocal(env, args[1..], row, bares);
    }
  }
}
