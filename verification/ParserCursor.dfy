/** The parser as it runs: one cursor moving over the token vector. */
module ParserCursor {
  import opened Values
  import opened ByteStrings
  import opened Expressions
  import opened Grammar

  datatype Outcome<T> = Parses(value: T) | Fails(error: ParseError)

  class SqlParser {
    const w: Lexicon
    const tokens: seq<Token>
    var pos: nat

    /** The token vector ends with the end-of-input token, which the cursor never passes. */
    predicate Valid()
      reads this
    {
      tokens != [] && tokens[|tokens| - 1] == Eof && pos < |tokens|
    }

    function Rest(): seq<Token>
      requires Valid()
      reads this
    {
      tokens[pos..|tokens| - 1]
    }

    /** The outcome and the cursor are the ones the grammar function gives. */
    predicate Agrees(r: Outcome<Expr>, spec: Parsed)
      requires Valid()
      reads this
    {
      match spec
      case Done(e, rest, _) => r == Parses(e) && Rest() == rest
      case Failed(error) => r == Fails(error)
    }

    predicate AgreesList(r: Outcome<seq<Expr>>, spec: ParsedList)
      requires Valid()
      reads this
    {
      match spec
      case DoneList(es, rest, _) => r == Parses(es) && Rest() == rest
      case FailedList(error) => r == Fails(error)
    }

    constructor (w: Lexicon, source: seq<Token>)
      ensures Valid() && Rest() == source && this.w == w
    {
      this.w := w;
      this.tokens := source + [Eof];
      this.pos := 0;
    }

    function PeekKind(): (t: Token)
      requires Valid()
      reads this
      ensures t == Peek(Rest())
    {
      tokens[pos]
    }

    function PeekAhead(n: nat): (t: Option<Token>)
      requires Valid()
      reads this
      ensures n <= |Rest()| ==> t == Some(Peek(Rest()[n..]))
    {
      if pos + n < |tokens| then Some(tokens[pos + n]) else None
    }

    method Bump() returns (t: Token)
      requires Valid()
      modifies this`pos
      ensures Valid() && t == Peek(old(Rest()))
      ensures Rest() == if t == Eof then old(Rest()) else old(Rest())[1..]
    {
      t := tokens[pos];
      if t != Eof { pos := pos + 1; }
    }

    method MatchKeyword(k: Keyword) returns (found: bool)
      requires Valid()
      modifies this`pos
      ensures Valid() && found == (Peek(old(Rest())) == Kw(k))
      ensures Rest() == if found then old(Rest())[1..] else old(Rest())
    {
      found := PeekKind() == Kw(k);
      if found { var _ := Bump(); }
    }

    method ExpectKeyword(k: Keyword) returns (r: Outcome<()>)
      requires Valid()
      modifies this`pos
      ensures Valid() && |Rest()| <= |old(Rest())|
      ensures if Peek(old(Rest())) == Kw(k) then r.Parses? && Rest() == old(Rest())[1..] else r == Fails(ExpectedKeyword(k))
    {
      var t := Bump();
      r := if t == Kw(k) then Parses(()) else Fails(ExpectedKeyword(k));
    }

    method ExpectPunct(p: Token) returns (r: Outcome<()>)
      requires Valid() && p != Eof
      modifies this`pos
      ensures Valid() && |Rest()| <= |old(Rest())|
      ensures if Peek(old(Rest())) == p then r.Parses? && Rest() == old(Rest())[1..] else r == Fails(ExpectedPunct(p))
    {
      var t := Bump();
      r := if t == p then Parses(()) else Fails(ExpectedPunct(p));
    }

    method ParseIdentifier(context: string) returns (r: Outcome<Bytes>)
      requires Valid()
      modifies this`pos
      ensures Valid() && |Rest()| <= |old(Rest())|
      ensures match IdentOf(w, Peek(old(Rest())))
              case Some(name) => r == Parses(name) && Rest() == old(Rest())[1..]
              case None => r == Fails(UnexpectedToken(context))
    {
      var t := Bump();
      match t
      case Name(text, _) => r := Parses(text);
      case Kw(k) => r := Parses(w.spell(k));
      case _ => r := Fails(UnexpectedToken(context));
    }

    /** Precedence climbing: a prefix, then infix operators that bind at `min` or tighter. */
    method ParseExprPrec(min: nat) returns (r: Outcome<Expr>)
      requires Valid() && OR <= min <= ADD
      modifies this`pos
      ensures Valid() && |Rest()| <= |old(Rest())|
      ensures Agrees(r, ParseAt(w, old(Rest()), min))
      decreases |Rest()|, 5
    {
      ghost var start := Rest();
      r := ParsePrefixExpr();
      if r.Fails? { return; }
      var left := r.value;
      ghost var n := ParsePrefix(w, start).swallowed;
      var more := true;
      while more
        invariant Valid() && |Rest()| < |start|
        invariant if more then ParseAt(w, start, min) == ParseLoop(w, Rest(), min, left, n) else ParseAt(w, start, min) == Done(left, Rest(), n)
        decreases |Rest()|, more
      {
        var step;
        step, n := ParseStep(min, left, n);
        match step
        case Fails(e) => return Fails(e);
        case Parses(None) => more := false;
        case Parses(Some(node)) => left := node;
      }
      r := Parses(left);
    }

    /** One turn of the infix loop: a larger tree, or nothing more at this level. */
    method ParseStep(min: nat, left: Expr, ghost n: nat) returns (r: Outcome<Option<Expr>>, ghost m: nat)
      requires Valid() && OR <= min <= ADD
      modifies this`pos
      ensures Valid() && |Rest()| <= |old(Rest())|
      ensures match r
              case Fails(e) => ParseLoop(w, old(Rest()), min, left, n) == Failed(e)
              case Parses(None) => ParseLoop(w, old(Rest()), min, left, n) == Done(left, Rest(), m)
              case Parses(Some(node)) =>
                |Rest()| < |old(Rest())| && ParseLoop(w, old(Rest()), min, left, n) == ParseLoop(w, Rest(), min, node, m)
      decreases |Rest()|, 4
    {
      m := n;
      var found := MatchKeyword(KwIs);
      if found {
        var negated := MatchKeyword(KwNot);
        var word := ExpectKeyword(KwNull);
        if word.Fails? { return Fails(word.error), m; }
        return Parses(Some(IsNull(left, negated))), m;
      }
      r, m := ParseNegatable(min, left, n);
    }

    /** IN and BETWEEN, each with an optional NOT. */
    method ParseNegatable(min: nat, left: Expr, ghost n: nat) returns (r: Outcome<Option<Expr>>, ghost m: nat)
      requires Valid() && OR <= min <= ADD && Peek(Rest()) != Kw(KwIs)
      modifies this`pos
      ensures Valid() && |Rest()| <= |old(Rest())|
      ensures match r
              case Fails(e) => ParseLoop(w, old(Rest()), min, left, n) == Failed(e)
              case Parses(None) => ParseLoop(w, old(Rest()), min, left, n) == Done(left, Rest(), m)
              case Parses(Some(node)) =>
                |Rest()| < |old(Rest())| && ParseLoop(w, old(Rest()), min, left, n) == ParseLoop(w, Rest(), min, node, m)
      decreases |Rest()|, 3
    {
      m := n;
      ghost var ts, spec := Rest(), ParseLoop(w, Rest(), min, left, n);
      if PeekKind() == Kw(KwNot) && PeekAhead(1) == Some(Kw(KwIn)) {
        assert spec == ParseIn(w, ts[2..], min, left, true, n);
        var _ := Bump();
        var _ := ExpectKeyword(KwIn);
        assert Rest() == ts[2..];
        r, m := ParseInTail(min, left, true, n);
        return;
      }
      var found := MatchKeyword(KwIn);
      if found {
        assert spec == ParseIn(w, ts[1..], min, left, false, n);
        r, m := ParseInTail(min, left, false, n);
        return;
      }
      r, m := ParseNotBetween(min, left, n);
    }

    /** NOT BETWEEN; a NOT before anything else is dropped. */
    method ParseNotBetween(min: nat, left: Expr, ghost n: nat) returns (r: Outcome<Option<Expr>>, ghost m: nat)
      requires Valid() && OR <= min <= ADD && Peek(Rest()) != Kw(KwIs) && Peek(Rest()) != Kw(KwIn)
      requires Peek(Rest()) == Kw(KwNot) ==> Peek(Rest()[1..]) != Kw(KwIn)
      modifies this`pos
      ensures Valid() && |Rest()| <= |old(Rest())|
      ensures match r
              case Fails(e) => ParseLoop(w, old(Rest()), min, left, n) == Failed(e)
              case Parses(None) => ParseLoop(w, old(Rest()), min, left, n) == Done(left, Rest(), m)
              case Parses(Some(node)) =>
                |Rest()| < |old(Rest())| && ParseLoop(w, old(Rest()), min, left, n) == ParseLoop(w, Rest(), min, node, m)
      decreases |Rest()|, 2
    {
      m := n;
      ghost var ts, spec := Rest(), ParseLoop(w, Rest(), min, left, n);
      var found := MatchKeyword(KwNot);
      if found {
        var between := MatchKeyword(KwBetween);
        if between {
          assert spec == ParseRange(w, ts[2..], min, left, true, n) && Rest() == ts[2..];
          r, m := ParseBetweenTail(min, left, true, n);
          return;
        }
        m := n + 1;
      }
      assert spec == ParseInfix(w, Rest(), min, left, m);
      r, m := ParseInfixStep(min, left, m);
    }

    /** The code below the NOT tests of the infix loop. */
    method ParseInfixStep(min: nat, left: Expr, ghost n: nat) returns (r: Outcome<Option<Expr>>, ghost m: nat)
      requires Valid() && OR <= min <= ADD
      modifies this`pos
      ensures Valid() && |Rest()| <= |old(Rest())|
      ensures match r
              case Fails(e) => ParseInfix(w, old(Rest()), min, left, n) == Failed(e)
              case Parses(None) => ParseInfix(w, old(Rest()), min, left, n) == Done(left, Rest(), m)
              case Parses(Some(node)) =>
                |Rest()| < |old(Rest())| && ParseInfix(w, old(Rest()), min, left, n) == ParseLoop(w, Rest(), min, node, m)
      decreases |Rest()|, 1
    {
      m := n;
      var found := MatchKeyword(KwBetween);
      if found {
        r, m := ParseBetweenTail(min, left, false, n);
        return;
      }
      found := MatchKeyword(KwOver);
      if found {
        return Fails(if left.Function? then OutsideModel else UnexpectedToken("OVER after non-function")), m;
      }
      var rule := InfixRule(PeekKind());
      if rule.None? || min > rule.value.1 { return Parses(None), m; }
      r, m := ParseRightOperand(min, left, n);
    }

    method ParseRightOperand(min: nat, left: Expr, ghost n: nat) returns (r: Outcome<Option<Expr>>, ghost m: nat)
      requires Valid() && OR <= min <= ADD
      requires InfixRule(Peek(Rest())).Some? && min <= InfixRule(Peek(Rest())).value.1
      modifies this`pos
      ensures Valid() && |Rest()| <= |old(Rest())|
      ensures match r
              case Fails(e) => ParseInfix(w, old(Rest()), min, left, n) == Failed(e)
              case Parses(None) => false
              case Parses(Some(node)) =>
                |Rest()| < |old(Rest())| && ParseInfix(w, old(Rest()), min, left, n) == ParseLoop(w, Rest(), min, node, m)
      decreases |Rest()|, 0
    {
      m := n;
      ghost var ts := Rest();
      var rule := InfixRule(PeekKind());
      var _ := Bump();
      ghost var x := ParseAt(w, Rest(), rule.value.2);
      var right := ParseExprPrec(rule.value.2);
      if right.Fails? { return Fails(right.error), m; }
      BinaryStep(w, ts, min, left, n, x);
      m := n + x.swallowed;
      r := Parses(Some(Binary(rule.value.0, left, right.value)));
    }

    method ParseInTail(min: nat, left: Expr, negated: bool, ghost n: nat) returns (r: Outcome<Option<Expr>>, ghost m: nat)
      requires Valid() && OR <= min <= ADD
      modifies this`pos
      ensures Valid() && |Rest()| <= |old(Rest())|
      ensures match r
              case Fails(e) => ParseIn(w, old(Rest()), min, left, negated, n) == Failed(e)
              case Parses(None) => false
              case Parses(Some(node)) =>
                |Rest()| < |old(Rest())| && ParseIn(w, old(Rest()), min, left, negated, n) == ParseLoop(w, Rest(), min, node, m)
      decreases |Rest()|, 8
    {
      m := n;
      ghost var ts := Rest();
      var open := ExpectPunct(LParen);
      if open.Fails? { return Fails(open.error), m; }
      if PeekKind() == Kw(KwSelect) { return Fails(OutsideModel), m; }
      ghost var a := ParseArgs(w, Rest());
      var values := ParseArgList();
      if values.Fails? { return Fails(values.error), m; }
      InStep(w, ts, min, left, negated, n, a);
      m := n + a.swallowed;
      r := Parses(Some(InList(left, values.value, negated)));
    }

    method ParseBetweenTail(min: nat, left: Expr, negated: bool, ghost n: nat) returns (r: Outcome<Option<Expr>>, ghost m: nat)
      requires Valid() && OR <= min <= ADD
      modifies this`pos
      ensures Valid() && |Rest()| <= |old(Rest())|
      ensures match r
              case Fails(e) => ParseRange(w, old(Rest()), min, left, negated, n) == Failed(e)
              case Parses(None) => false
              case Parses(Some(node)) =>
                |Rest()| < |old(Rest())| && ParseRange(w, old(Rest()), min, left, negated, n) == ParseLoop(w, Rest(), min, node, m)
      decreases |Rest()|, 8
    {
      m := n;
      ghost var ts, lo := Rest(), ParseAt(w, Rest(), COMPARE);
      RangeFails(w, ts, min, left, negated, n);
      var low := ParseExprPrec(COMPARE);
      if low.Fails? { return Fails(low.error), m; }
      var and := ExpectKeyword(KwAnd);
      if and.Fails? { return Fails(and.error), m; }
      ghost var hi := ParseAt(w, Rest(), COMPARE);
      var high := ParseExprPrec(COMPARE);
      if high.Fails? { return Fails(high.error), m; }
      RangeStep(w, ts, min, left, negated, n, lo, hi);
      m := n + lo.swallowed + hi.swallowed;
      r := Parses(Some(Between(left, low.value, high.value, negated)));
    }

    method ParsePrefixExpr() returns (r: Outcome<Expr>)
      requires Valid()
      modifies this`pos
      ensures Valid() && |Rest()| <= |old(Rest())|
      ensures Agrees(r, ParsePrefix(w, old(Rest())))
      decreases |Rest()|, 2
    {
      if PeekKind() == Kw(KwCast) || PeekKind() == Kw(KwExists) { return Fails(OutsideModel); }
      if PeekKind() == Kw(KwNot) && PeekAhead(1) == Some(Kw(KwExists)) { return Fails(OutsideModel); }
      var not := MatchKeyword(KwNot);
      if not {
        r := ParseExprPrec(AND);
        return if r.Fails? then r else Parses(Unary(Not, r.value));
      }
      if PeekKind() == Op(Minus) {
        var _ := Bump();
        r := ParseExprPrec(ADD);
        return if r.Fails? then r else Parses(Unary(Neg, r.value));
      }
      if PeekKind() == LParen {
        var _ := Bump();
        if PeekKind() == Kw(KwSelect) || PeekKind() == Kw(KwWith) { return Fails(OutsideModel); }
        r := ParseExprPrec(OR);
        if r.Fails? { return; }
        var close := ExpectPunct(RParen);
        return if close.Fails? then Fails(close.error) else Parses(Paren(r.value));
      }
      r := ParseAtom();
    }

    /** Literals and other single tokens; an identifier is put back and parsed as a name. */
    method ParseAtom() returns (r: Outcome<Expr>)
      requires Valid() && Peek(Rest()) !in {Kw(KwNot), Kw(KwCast), Kw(KwExists), Op(Minus), LParen}
      modifies this`pos
      ensures Valid() && |Rest()| <= |old(Rest())|
      ensures Agrees(r, ParsePrefix(w, old(Rest())))
      decreases |Rest()|, 1
    {
      ghost var start := Rest();
      var t := Bump();
      var atom := AtomOf(t);
      if atom.Some? { return Parses(atom.value); }
      if t.Kw? || t.Name? {
        pos := pos - 1;
        assert Rest() == start;
        r := ParseIdentExpr();
      } else {
        r := Fails(UnexpectedToken("expression"));
      }
    }

    method ParseIdentExpr() returns (r: Outcome<Expr>)
      requires Valid() && IdentOf(w, Peek(Rest())).Some?
      modifies this`pos
      ensures Valid() && |Rest()| <= |old(Rest())|
      ensures Agrees(r, ParseIdent(w, old(Rest())))
      decreases |Rest()|, 0
    {
      var first := ParseIdentifier("identifier");
      if PeekKind() == LParen {
        var _ := Bump();
        var args := ParseArgList();
        return if args.Fails? then Fails(args.error) else Parses(Function(first.value, args.value));
      }
      if PeekKind() == Dot {
        var _ := Bump();
        if PeekKind() == StarMark {
          var _ := Bump();
          return Parses(QualifiedStar(first.value));
        }
        var column := ParseIdentifier("identifier");
        return if column.Fails? then Fails(column.error) else Parses(Column(Some(first.value), column.value));
      }
      r := Parses(Column(None, first.value));
    }

    /** Comma-separated expressions and the closing parenthesis. */
    method ParseArgList() returns (r: Outcome<seq<Expr>>)
      requires Valid()
      modifies this`pos
      ensures Valid() && |Rest()| <= |old(Rest())|
      ensures AgreesList(r, ParseArgs(w, old(Rest())))
      decreases |Rest()|, 7
    {
      var args: seq<Expr> := [];
      if PeekKind() != RParen {
        r := ParseExprList();
        if r.Fails? { return; }
        args := r.value;
      }
      var close := ExpectPunct(RParen);
      r := if close.Fails? then Fails(close.error) else Parses(args);
    }

    method ParseExprList() returns (r: Outcome<seq<Expr>>)
      requires Valid()
      modifies this`pos
      ensures Valid() && |Rest()| <= |old(Rest())|
      ensures AgreesList(r, ParseList(w, old(Rest())))
      decreases |Rest()|, 6
    {
      ghost var start := Rest();
      var args: seq<Expr> := [];
      ghost var n: nat := 0;
      var more := true;
      while more
        invariant Valid() && |Rest()| <= |start|
        invariant more ==> ParseList(w, start) == Joined(args, n, ParseList(w, Rest()))
        invariant !more ==> ParseList(w, start) == DoneList(args, Rest(), n)
        decreases |Rest()|, more
      {
        ghost var here := Rest();
        ghost var x := ParseAt(w, here, OR);
        var arg := ParseExprPrec(OR);
        if arg.Fails? { return Fails(arg.error); }
        more := PeekKind() == Comma;
        if more { var _ := Bump(); }
        JoinStep(w, args, n, here, x);
        args := args + [arg.value];
        n := n + x.swallowed;
      }
      r := Parses(args);
    }
  }

  lemma JoinStep(w: Lexicon, es: seq<Expr>, n: nat, ts: seq<Token>, x: Parsed)
    requires x == ParseAt(w, ts, OR) && x.Done?
    ensures Joined(es, n, ParseList(w, ts))
         == if Peek(x.rest) == Comma then Joined(es + [x.expr], n + x.swallowed, ParseList(w, x.rest[1..]))
            else DoneList(es + [x.expr], x.rest, n + x.swallowed)
  {
    if Peek(x.rest) == Comma && ParseList(w, x.rest[1..]).DoneList? {
      var fs := ParseList(w, x.rest[1..]).exprs;
      assert es + ([x.expr] + fs) == es + [x.expr] + fs;
    }
  }

  function Joined(es: seq<Expr>, n: nat, r: ParsedList): ParsedList {
    match r
    case DoneList(fs, rest, m) => DoneList(es + fs, rest, n + m)
    case FailedList(e) => r
  }
}
