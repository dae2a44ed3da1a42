/** Expression tokens, the printer, and the precedence-climbing parser as functions on token lists. */
module Grammar {
  import opened Values
  import opened ByteStrings
  import opened Expressions

  datatype Keyword =
    | KwAnd | KwOr | KwNot | KwIs | KwNull | KwIn | KwBetween | KwLike | KwOver
    | KwTrue | KwFalse | KwCast | KwExists | KwSelect | KwWith | KwCurrentUser
    | KwOther(word: Bytes)

  /** The end-of-input token is the empty rest of a list. */
  datatype Token =
    | Kw(k: Keyword)
    | Name(text: Bytes, quoted: bool)
    | Number(n: nat)
    | Real(x: real)
    | Str(s: Bytes)
    | Op(op: BinaryOp)
    | LParen | RParen | Comma | Semicolon | Dot | StarMark
    | Placeholder(index: nat)
    | Eof

  datatype ParseError =
    | UnexpectedToken(context: string)
    | ExpectedKeyword(k: Keyword)
    | ExpectedPunct(t: Token)
    | OutsideModel

  /**
   * How words and numbers are spelled: `spell` is the lexeme of a keyword used as an identifier,
   * `name` and `float` are the tokens that printed identifiers and floats lex to.
   */
  datatype Lexicon = Lexicon(spell: Keyword -> Bytes, name: Bytes -> Token, float: real -> Token)

  /** `swallowed` counts infix NOTs that were consumed without leaving a trace in the tree. */
  datatype Parsed =
    | Done(expr: Expr, rest: seq<Token>, swallowed: nat)
    | Failed(error: ParseError)

  datatype ParsedList =
    | DoneList(exprs: seq<Expr>, rest: seq<Token>, swallowed: nat)
    | FailedList(error: ParseError)

  // ----- printing -----

  function OpToken(op: BinaryOp): Token {
    match op
    case And => Kw(KwAnd)
    case Or => Kw(KwOr)
    case LikeOp => Kw(KwLike)
    case Mul => StarMark
    case _ => Op(op)
  }

  function PrintLit(w: Lexicon, l: Lit): seq<Token> {
    match l
    case NullLit => [Kw(KwNull)]
    case IntLit(n) => if n >= 0 then [Number(n)] else [Op(Minus), Number(-n)]
    case FloatLit(x) => [w.float(x)]
    case StringLit(s) => [Str(s)]
    case BoolLit(b) => [Kw(if b then KwTrue else KwFalse)]
  }

  function Negation(negated: bool): seq<Token> {
    if negated then [Kw(KwNot)] else []
  }

  /** The printer adds no parentheses of its own. Subqueries and CAST are not printed here. */
  function Print(w: Lexicon, e: Expr): seq<Token>
    decreases e, 0
  {
    match e
    case Literal(l) => PrintLit(w, l)
    case Column(t, c) => (if t.Some? then [w.name(t.value), Dot] else []) + [w.name(c)]
    case Star => [StarMark]
    case QualifiedStar(t) => [w.name(t), Dot, StarMark]
    case Unary(op, x) => [if op.Not? then Kw(KwNot) else Op(Minus)] + Print(w, x)
    case Binary(op, l, r) => Print(w, l) + [OpToken(op)] + Print(w, r)
    case IsNull(x, negated) => Print(w, x) + [Kw(KwIs)] + Negation(negated) + [Kw(KwNull)]
    case InList(x, values, negated) => Print(w, x) + Negation(negated) + [Kw(KwIn), LParen] + PrintList(w, values) + [RParen]
    case Between(x, low, high, negated) =>
      Print(w, x) + Negation(negated) + [Kw(KwBetween)] + Print(w, low) + [Kw(KwAnd)] + Print(w, high)
    case Paren(x) => [LParen] + Print(w, x) + [RParen]
    case Function(name, args) => [w.name(name), LParen] + PrintList(w, args) + [RParen]
    case Parameter(i) => [Placeholder(i)]
    case CurrentUser => [Kw(KwCurrentUser)]
    case InSubquery(_, _, _) => []
    case Cast(_, _) => []
  }

  function PrintList(w: Lexicon, es: seq<Expr>): seq<Token>
    decreases es, 1
  {
    if es == [] then []
    else if |es| == 1 then Print(w, es[0])
    else Print(w, es[0]) + [Comma] + PrintList(w, es[1..])
  }

  // ----- parsing -----

  function Peek(ts: seq<Token>): Token {
    if ts == [] then Eof else ts[0]
  }

  const OR := 1
  const AND := 2
  const COMPARE := 3
  const ADD := 4

  /** Infix operators: the tree node, the loosest level at which it is taken, the level of its right operand. */
  function InfixRule(t: Token): Option<(BinaryOp, nat, nat)> {
    match t
    case Kw(KwLike) => Some((LikeOp, ADD, COMPARE))
    case Kw(KwOr) => Some((Or, OR, AND))
    case Kw(KwAnd) => Some((And, AND, COMPARE))
    case Op(op) =>
      if op.Eq? || op.Ne? || op.Lt? || op.Gt? || op.Le? || op.Ge? || op.Distance? then Some((op, COMPARE, COMPARE))
      else if op.Plus? || op.Minus? || op.Div? || op.Mod? then Some((op, ADD, ADD))
      else None
    case StarMark => Some((Mul, ADD, ADD))
    case _ => None
  }

  function Level(e: Expr): nat {
    if e.Binary? && e.op.Or? then OR else if e.Binary? && e.op.And? then AND else COMPARE
  }

  function IdentOf(w: Lexicon, t: Token): Option<Bytes> {
    match t
    case Name(text, _) => Some(text)
    case Kw(k) => Some(w.spell(k))
    case _ => None
  }

  /** Expressions of one token other than names. */
  function AtomOf(t: Token): Option<Expr> {
    match t
    case Kw(KwCurrentUser) => Some(CurrentUser)
    case Placeholder(i) => Some(Parameter(i))
    case Number(v) => Some(Literal(IntLit(v)))
    case Real(x) => Some(Literal(FloatLit(x)))
    case Str(s) => Some(Literal(StringLit(s)))
    case Kw(KwNull) => Some(Literal(NullLit))
    case Kw(KwTrue) => Some(Literal(BoolLit(true)))
    case Kw(KwFalse) => Some(Literal(BoolLit(false)))
    case StarMark => Some(Star)
    case _ => None
  }

  /** Parse at level `min`; no AND or OR looser than the level is left bare at the top. */
  function ParseAt(w: Lexicon, ts: seq<Token>, min: nat): (r: Parsed)
    requires OR <= min <= ADD
    ensures r.Done? ==> |r.rest| < |ts|
    ensures r.Done? && min <= COMPARE ==> min <= Level(r.expr)
    decreases |ts|, 3
  {
    match ParsePrefix(w, ts)
    case Failed(e) => Failed(e)
    case Done(left, rest, n) => ParseLoop(w, rest, min, left, n)
  }

  function ParseLoop(w: Lexicon, ts: seq<Token>, min: nat, left: Expr, n: nat): (r: Parsed)
    requires OR <= min <= ADD
    ensures r.Done? ==> |r.rest| <= |ts|
    ensures r.Done? && min <= COMPARE && min <= Level(left) ==> min <= Level(r.expr)
    decreases |ts|, 2
  {
    match Peek(ts)
    case Kw(KwIs) =>
      var negated := Peek(ts[1..]) == Kw(KwNot);
      var rest := if negated then ts[2..] else ts[1..];
      if Peek(rest) != Kw(KwNull) then Failed(ExpectedKeyword(KwNull))
      else ParseLoop(w, rest[1..], min, IsNull(left, negated), n)
    case Kw(KwIn) => ParseIn(w, ts[1..], min, left, false, n)
    case Kw(KwNot) =>
      if Peek(ts[1..]) == Kw(KwIn) then ParseIn(w, ts[2..], min, left, true, n)
      else if Peek(ts[1..]) == Kw(KwBetween) then ParseRange(w, ts[2..], min, left, true, n)
      else ParseInfix(w, ts[1..], min, left, n + 1)
    case _ => ParseInfix(w, ts, min, left, n)
  }

  function ParseInfix(w: Lexicon, ts: seq<Token>, min: nat, left: Expr, n: nat): (r: Parsed)
    requires OR <= min <= ADD
    ensures r.Done? ==> |r.rest| <= |ts|
    ensures r.Done? && min <= COMPARE && min <= Level(left) ==> min <= Level(r.expr)
    decreases |ts|, 1
  {
    var rule := InfixRule(Peek(ts));
    if Peek(ts) == Kw(KwBetween) then ParseRange(w, ts[1..], min, left, false, n)
    else if Peek(ts) == Kw(KwOver) then Failed(if left.Function? then OutsideModel else UnexpectedToken("OVER after non-function"))
    else if rule.None? || min > rule.value.1 then Done(left, ts, n)
    else match ParseAt(w, ts[1..], rule.value.2)
      case Failed(e) => Failed(e)
      case Done(right, rest, m) => ParseLoop(w, rest, min, Binary(rule.value.0, left, right), n + m)
  }

  function ParseIn(w: Lexicon, ts: seq<Token>, min: nat, left: Expr, negated: bool, n: nat): (r: Parsed)
    requires OR <= min <= ADD
    ensures r.Done? ==> |r.rest| < |ts|
    ensures r.Done? && min <= COMPARE ==> min <= Level(r.expr)
    decreases |ts|, 5
  {
    if Peek(ts) != LParen then Failed(ExpectedPunct(LParen))
    else if Peek(ts[1..]) == Kw(KwSelect) then Failed(OutsideModel)
    else match ParseArgs(w, ts[1..])
      case FailedList(e) => Failed(e)
      case DoneList(values, rest, m) => ParseLoop(w, rest, min, InList(left, values, negated), n + m)
  }

  function ParseRange(w: Lexicon, ts: seq<Token>, min: nat, left: Expr, negated: bool, n: nat): (r: Parsed)
    requires OR <= min <= ADD
    ensures r.Done? ==> |r.rest| < |ts|
    ensures r.Done? && min <= COMPARE ==> min <= Level(r.expr)
    decreases |ts|, 5
  {
    match ParseAt(w, ts, COMPARE)
    case Failed(e) => Failed(e)
    case Done(low, rest, m) =>
      if Peek(rest) != Kw(KwAnd) then Failed(ExpectedKeyword(KwAnd))
      else match ParseAt(w, rest[1..], COMPARE)
        case Failed(e) => Failed(e)
        case Done(high, rest2, m2) => ParseLoop(w, rest2, min, Between(left, low, high, negated), n + m + m2)
  }

  function ParsePrefix(w: Lexicon, ts: seq<Token>): (r: Parsed)
    ensures r.Done? ==> |r.rest| < |ts| && Level(r.expr) == COMPARE
    decreases |ts|, 1
  {
    match Peek(ts)
    case Kw(KwCast) => Failed(OutsideModel)
    case Kw(KwExists) => Failed(OutsideModel)
    case Kw(KwNot) =>
      if Peek(ts[1..]) == Kw(KwExists) then Failed(OutsideModel)
      else (match ParseAt(w, ts[1..], AND) case Failed(e) => Failed(e) case Done(x, rest, n) => Done(Unary(Not, x), rest, n))
    case Op(Minus) =>
      (match ParseAt(w, ts[1..], ADD) case Failed(e) => Failed(e) case Done(x, rest, n) => Done(Unary(Neg, x), rest, n))
    case LParen =>
      if Peek(ts[1..]) == Kw(KwSelect) || Peek(ts[1..]) == Kw(KwWith) then Failed(OutsideModel)
      else (match ParseAt(w, ts[1..], OR)
            case Failed(e) => Failed(e)
            case Done(x, rest, n) => if Peek(rest) != RParen then Failed(ExpectedPunct(RParen)) else Done(Paren(x), rest[1..], n))
    case t => match AtomOf(t)
      case Some(e) => Done(e, ts[1..], 0)
      case None => ParseIdent(w, ts)
  }

  /** A function call, `table.*`, `table.column` or `column`. */
  function ParseIdent(w: Lexicon, ts: seq<Token>): (r: Parsed)
    ensures r.Done? ==> |r.rest| < |ts| && Level(r.expr) == COMPARE
    decreases |ts|, 0
  {
    var first := IdentOf(w, Peek(ts));
    if first.None? then Failed(UnexpectedToken("expression"))
    else if Peek(ts[1..]) == LParen then
      match ParseArgs(w, ts[2..])
      case FailedList(e) => Failed(e)
      case DoneList(args, rest, n) => Done(Function(first.value, args), rest, n)
    else if Peek(ts[1..]) == Dot then
      if Peek(ts[2..]) == StarMark then Done(QualifiedStar(first.value), ts[3..], 0)
      else
        var second := IdentOf(w, Peek(ts[2..]));
        if second.None? then Failed(UnexpectedToken("identifier"))
        else Done(Column(first, second.value), ts[3..], 0)
    else Done(Column(None, first.value), ts[1..], 0)
  }

  /** Comma-separated expressions up to the closing parenthesis, possibly none. */
  function ParseArgs(w: Lexicon, ts: seq<Token>): (r: ParsedList)
    ensures r.DoneList? ==> |r.rest| < |ts|
    decreases |ts|, 5
  {
    if Peek(ts) == RParen then DoneList([], ts[1..], 0)
    else match ParseList(w, ts)
      case FailedList(e) => FailedList(e)
      case DoneList(es, rest, n) =>
        if Peek(rest) != RParen then FailedList(ExpectedPunct(RParen)) else DoneList(es, rest[1..], n)
  }

  function ParseList(w: Lexicon, ts: seq<Token>): (r: ParsedList)
    ensures r.DoneList? ==> |r.rest| < |ts| && r.exprs != []
    decreases |ts|, 4
  {
    match ParseAt(w, ts, OR)
    case Failed(e) => FailedList(e)
    case Done(x, rest, n) =>
      if Peek(rest) != Comma then DoneList([x], rest, n)
      else match ParseList(w, rest[1..])
        case FailedList(e) => FailedList(e)
        case DoneList(es, rest2, m) => DoneList([x] + es, rest2, n + m)
  }

  // ----- the rules with sub-expressions, unfolded -----

  lemma BinaryStep(w: Lexicon, ts: seq<Token>, min: nat, left: Expr, n: nat, x: Parsed)
    requires OR <= min <= ADD
    requires InfixRule(Peek(ts)).Some? && min <= InfixRule(Peek(ts)).value.1
    requires x.Done? && x == ParseAt(w, ts[1..], InfixRule(Peek(ts)).value.2)
    ensures ParseInfix(w, ts, min, left, n)
         == ParseLoop(w, x.rest, min, Binary(InfixRule(Peek(ts)).value.0, left, x.expr), n + x.swallowed)
  {
  }

  lemma RangeStep(w: Lexicon, ts: seq<Token>, min: nat, left: Expr, negated: bool, n: nat, low: Parsed, high: Parsed)
    requires OR <= min <= ADD
    requires low.Done? && low == ParseAt(w, ts, COMPARE) && Peek(low.rest) == Kw(KwAnd)
    requires high.Done? && high == ParseAt(w, low.rest[1..], COMPARE)
    ensures ParseRange(w, ts, min, left, negated, n)
         == ParseLoop(w, high.rest, min, Between(left, low.expr, high.expr, negated), n + low.swallowed + high.swallowed)
  {
  }

  lemma RangeFails(w: Lexicon, ts: seq<Token>, min: nat, left: Expr, negated: bool, n: nat)
    requires OR <= min <= ADD
    ensures var low := ParseAt(w, ts, COMPARE);
            match low
            case Failed(e) => ParseRange(w, ts, min, left, negated, n) == Failed(e)
            case Done(_, rest, _) =>
              if Peek(rest) != Kw(KwAnd) then ParseRange(w, ts, min, left, negated, n) == Failed(ExpectedKeyword(KwAnd))
              else ParseAt(w, rest[1..], COMPARE).Failed? ==>
                     ParseRange(w, ts, min, left, negated, n) == Failed(ParseAt(w, rest[1..], COMPARE).error)
  {
  }

  lemma InStep(w: Lexicon, ts: seq<Token>, min: nat, left: Expr, negated: bool, n: nat, a: ParsedList)
    requires OR <= min <= ADD && Peek(ts) == LParen && Peek(ts[1..]) != Kw(KwSelect)
    requires a.DoneList? && a == ParseArgs(w, ts[1..])
    ensures ParseIn(w, ts, min, left, negated, n) == ParseLoop(w, a.rest, min, InList(left, a.exprs, negated), n + a.swallowed)
  {
  }
}
