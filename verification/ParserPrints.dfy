/** What the parser consumes is what the printer writes, up to swallowed NOTs. */
module ParserPrints {
  import opened Values
  import opened Expressions
  import opened Grammar

  /** The token is what printing the identifier or float it stands for lexes to. */
  predicate Plain(w: Lexicon, t: Token) {
    match t
    case Name(text, _) => w.name(text) == t
    case Kw(k) => w.name(w.spell(k)) == t
    case Real(x) => w.float(x) == t
    case _ => true
  }

  predicate AllPlain(w: Lexicon, ts: seq<Token>) {
    forall i :: 0 <= i < |ts| ==> Plain(w, ts[i])
  }

  /** `ts` reads `out`, except for `n` tokens that left no trace. */
  predicate Reads(ts: seq<Token>, out: seq<Token>, n: int) {
    n >= 0 && |ts| == |out| + n && (n == 0 ==> ts == out)
  }

  lemma ReadsAfter(a: seq<Token>, ts: seq<Token>, out: seq<Token>, n: int)
    requires Reads(ts, out, n)
    ensures Reads(a + ts, a + out, n)
  {
  }

  lemma ReadsThen(a: seq<Token>, b: seq<Token>, c: seq<Token>, n: int, m: int)
    requires Reads(a, b, n) && Reads(b, c, m)
    ensures Reads(a, c, n + m)
  {
  }

  /** One more piece `mid + out` between what was read and the rest. */
  lemma ReadsPiece(a: seq<Token>, mid: seq<Token>, ts: seq<Token>, out: seq<Token>, rest: seq<Token>, n: int)
    requires Reads(ts, out + rest, n)
    ensures Reads(a + (mid + ts), a + mid + out + rest, n)
  {
    ReadsAfter(a + mid, ts, out + rest, n);
    assert a + mid + ts == a + (mid + ts);
    assert a + mid + (out + rest) == a + mid + out + rest;
  }

  lemma Regroup<T>(p: seq<T>, a: seq<T>, b: seq<T>, c: seq<T>, d: seq<T>)
    ensures p + (a + b) + (c + d) == p + a + b + c + d
  {
  }

  lemma SplitHead(ts: seq<Token>)
    requires ts != []
    ensures ts == [Peek(ts)] + ts[1..]
  {
  }

  lemma SplitTwo(ts: seq<Token>)
    requires |ts| >= 2
    ensures ts == [ts[0], ts[1]] + ts[2..] && Peek(ts[1..]) == ts[1]
  {
  }

  // ----- one lemma per grammar rule, on token lists only -----

  lemma IsRule(w: Lexicon, left: Expr, negated: bool, ts: seq<Token>, rest: seq<Token>)
    requires ts == [Kw(KwIs)] + Negation(negated) + [Kw(KwNull)] + rest
    ensures Print(w, left) + ts == Print(w, IsNull(left, negated)) + rest
  {
    var p := Print(w, left);
    assert p + [Kw(KwIs)] + Negation(negated) + [Kw(KwNull)] + rest == p + ([Kw(KwIs)] + Negation(negated) + [Kw(KwNull)] + rest);
  }

  lemma BinaryRule(w: Lexicon, op: BinaryOp, left: Expr, right: Expr, ts: seq<Token>, rest: seq<Token>, n: int)
    requires Reads(ts, Print(w, right) + rest, n)
    ensures Reads(Print(w, left) + ([OpToken(op)] + ts), Print(w, Binary(op, left, right)) + rest, n)
  {
    ReadsPiece(Print(w, left), [OpToken(op)], ts, Print(w, right), rest, n);
  }

  lemma InRule(w: Lexicon, left: Expr, negated: bool, values: seq<Expr>, ts: seq<Token>, rest: seq<Token>, n: int)
    requires Reads(ts, PrintList(w, values) + [RParen] + rest, n)
    ensures Reads(Print(w, left) + (Negation(negated) + [Kw(KwIn), LParen] + ts), Print(w, InList(left, values, negated)) + rest, n)
  {
    var p, q, list := Print(w, left), Negation(negated) + [Kw(KwIn), LParen], PrintList(w, values) + [RParen];
    ReadsPiece(p, q, ts, list, rest, n);
    Regroup(p, Negation(negated), [Kw(KwIn), LParen], PrintList(w, values), [RParen]);
  }

  lemma RangeRule(w: Lexicon, left: Expr, negated: bool, low: Expr, high: Expr,
                  ts: seq<Token>, mid: seq<Token>, rest: seq<Token>, n: int, m: int)
    requires Reads(ts, Print(w, low) + ([Kw(KwAnd)] + mid), n) && Reads(mid, Print(w, high) + rest, m)
    ensures Reads(Print(w, left) + (Negation(negated) + [Kw(KwBetween)] + ts), Print(w, Between(left, low, high, negated)) + rest, n + m)
  {
    var p, q := Print(w, left), Negation(negated) + [Kw(KwBetween)];
    ReadsPiece(p, q, ts, Print(w, low), [Kw(KwAnd)] + mid, n);
    ReadsPiece(p + q + Print(w, low), [Kw(KwAnd)], mid, Print(w, high), rest, m);
    ReadsThen(p + (q + ts), p + q + Print(w, low) + ([Kw(KwAnd)] + mid),
              p + q + Print(w, low) + [Kw(KwAnd)] + Print(w, high) + rest, n, m);
    assert p + q == p + Negation(negated) + [Kw(KwBetween)];
  }

  lemma ListRule(w: Lexicon, x: Expr, more: seq<Expr>, ts: seq<Token>, mid: seq<Token>, rest: seq<Token>, n: int, m: int)
    requires more != [] && Reads(ts, Print(w, x) + ([Comma] + mid), n) && Reads(mid, PrintList(w, more) + rest, m)
    ensures Reads(ts, PrintList(w, [x] + more) + rest, n + m)
  {
    ReadsPiece(Print(w, x), [Comma], mid, PrintList(w, more), rest, m);
    ReadsThen(ts, Print(w, x) + ([Comma] + mid), Print(w, x) + [Comma] + PrintList(w, more) + rest, n, m);
    assert ([x] + more)[1..] == more;
  }

  lemma WrapRule(open: seq<Token>, ts: seq<Token>, out: seq<Token>, close: Token, rest: seq<Token>, n: int)
    requires Reads(ts, out + ([close] + rest), n)
    ensures Reads(open + ts, open + out + [close] + rest, n)
  {
    ReadsAfter(open, ts, out + ([close] + rest), n);
    assert open + (out + ([close] + rest)) == open + out + [close] + rest;
  }

  lemma CallRule(name: Token, ts: seq<Token>, args: seq<Token>, rest: seq<Token>, n: int)
    requires Reads(ts, args + [RParen] + rest, n)
    ensures Reads([name, LParen] + ts, [name, LParen] + args + [RParen] + rest, n)
  {
    ReadsAfter([name, LParen], ts, args + [RParen] + rest, n);
    assert [name, LParen] + (args + [RParen] + rest) == [name, LParen] + args + [RParen] + rest;
  }

  // ----- the parser follows the rules -----

  lemma {:induction false} PrintsAt(w: Lexicon, ts: seq<Token>, min: nat)
    requires OR <= min <= ADD && AllPlain(w, ts)
    requires ParseAt(w, ts, min).Done?
    ensures var r := ParseAt(w, ts, min); Reads(ts, Print(w, r.expr) + r.rest, r.swallowed) && AllPlain(w, r.rest)
    decreases |ts|, 3
  {
    PrintsPrefix(w, ts);
    var p := ParsePrefix(w, ts);
    PrintsLoop(w, p.rest, min, p.expr, p.swallowed);
    var r := ParseAt(w, ts, min);
    ReadsThen(ts, Print(w, p.expr) + p.rest, Print(w, r.expr) + r.rest, p.swallowed, r.swallowed - p.swallowed);
  }

  lemma {:induction false} PrintsLoop(w: Lexicon, ts: seq<Token>, min: nat, left: Expr, n: nat)
    requires OR <= min <= ADD && AllPlain(w, ts)
    requires ParseLoop(w, ts, min, left, n).Done?
    ensures var r := ParseLoop(w, ts, min, left, n);
            Reads(Print(w, left) + ts, Print(w, r.expr) + r.rest, r.swallowed - n) && AllPlain(w, r.rest)
    decreases |ts|, 2
  {
    var h := Peek(ts);
    if h == Kw(KwIs) {
      PrintsIs(w, ts, min, left, n);
    } else if h == Kw(KwIn) {
      PrintsIn(w, ts[1..], min, left, false, n);
      assert ts == Negation(false) + [Kw(KwIn)] + ts[1..];
    } else if h == Kw(KwNot) {
      PrintsNot(w, ts, min, left, n);
    } else {
      PrintsInfix(w, ts, min, left, n);
    }
  }

  lemma {:induction false} PrintsIs(w: Lexicon, ts: seq<Token>, min: nat, left: Expr, n: nat)
    requires OR <= min <= ADD && AllPlain(w, ts) && Peek(ts) == Kw(KwIs)
    requires ParseLoop(w, ts, min, left, n).Done?
    ensures var r := ParseLoop(w, ts, min, left, n);
            Reads(Print(w, left) + ts, Print(w, r.expr) + r.rest, r.swallowed - n) && AllPlain(w, r.rest)
    decreases |ts|, 1
  {
    var negated := Peek(ts[1..]) == Kw(KwNot);
    var rest := if negated then ts[2..] else ts[1..];
    PrintsLoop(w, rest[1..], min, IsNull(left, negated), n);
    assert ts == [Kw(KwIs)] + Negation(negated) + [Kw(KwNull)] + rest[1..];
    IsRule(w, left, negated, ts, rest[1..]);
  }

  lemma {:induction false} PrintsNot(w: Lexicon, ts: seq<Token>, min: nat, left: Expr, n: nat)
    requires OR <= min <= ADD && AllPlain(w, ts) && Peek(ts) == Kw(KwNot)
    requires ParseLoop(w, ts, min, left, n).Done?
    ensures var r := ParseLoop(w, ts, min, left, n);
            Reads(Print(w, left) + ts, Print(w, r.expr) + r.rest, r.swallowed - n) && AllPlain(w, r.rest)
    decreases |ts|, 1
  {
    if Peek(ts[1..]) == Kw(KwIn) {
      PrintsIn(w, ts[2..], min, left, true, n);
      assert ts == Negation(true) + [Kw(KwIn)] + ts[2..];
    } else if Peek(ts[1..]) == Kw(KwBetween) {
      PrintsRange(w, ts[2..], min, left, true, n);
      assert ts == Negation(true) + [Kw(KwBetween)] + ts[2..];
    } else {
      PrintsInfix(w, ts[1..], min, left, n + 1);
    }
  }

  lemma {:induction false} PrintsInfix(w: Lexicon, ts: seq<Token>, min: nat, left: Expr, n: nat)
    requires OR <= min <= ADD && AllPlain(w, ts)
    requires ParseInfix(w, ts, min, left, n).Done?
    ensures var r := ParseInfix(w, ts, min, left, n);
            Reads(Print(w, left) + ts, Print(w, r.expr) + r.rest, r.swallowed - n) && AllPlain(w, r.rest)
    decreases |ts|, 1
  {
    if Peek(ts) == Kw(KwBetween) {
      PrintsRange(w, ts[1..], min, left, false, n);
      assert ts == Negation(false) + [Kw(KwBetween)] + ts[1..];
    } else if InfixRule(Peek(ts)).Some? && min <= InfixRule(Peek(ts)).value.1 {
      PrintsBinary(w, ts, min, left, n);
    }
  }

  lemma RuleToken(t: Token)
    requires InfixRule(t).Some?
    ensures OpToken(InfixRule(t).value.0) == t && OR <= InfixRule(t).value.2 <= ADD
    ensures t != Kw(KwBetween) && t != Kw(KwOver)
  {
  }

  lemma {:induction false} PrintsBinary(w: Lexicon, ts: seq<Token>, min: nat, left: Expr, n: nat)
    requires OR <= min <= ADD && AllPlain(w, ts)
    requires InfixRule(Peek(ts)).Some? && min <= InfixRule(Peek(ts)).value.1
    requires ParseInfix(w, ts, min, left, n).Done?
    ensures var r := ParseInfix(w, ts, min, left, n);
            Reads(Print(w, left) + ts, Print(w, r.expr) + r.rest, r.swallowed - n) && AllPlain(w, r.rest)
    decreases |ts|, 0
  {
    RuleToken(Peek(ts));
    var (op, _, level) := InfixRule(Peek(ts)).value;
    var x := ParseAt(w, ts[1..], level);
    var r := ParseLoop(w, x.rest, min, Binary(op, left, x.expr), n + x.swallowed);
    BinaryStep(w, ts, min, left, n, x);
    PrintsAt(w, ts[1..], level);
    PrintsLoop(w, x.rest, min, Binary(op, left, x.expr), n + x.swallowed);
    SplitHead(ts);
    BinaryRule(w, op, left, x.expr, ts[1..], x.rest, x.swallowed);
    ReadsThen(Print(w, left) + ts, Print(w, Binary(op, left, x.expr)) + x.rest, Print(w, r.expr) + r.rest,
              x.swallowed, r.swallowed - n - x.swallowed);
  }

  lemma {:induction false} PrintsIn(w: Lexicon, ts: seq<Token>, min: nat, left: Expr, negated: bool, n: nat)
    requires OR <= min <= ADD && AllPlain(w, ts)
    requires ParseIn(w, ts, min, left, negated, n).Done?
    ensures var r := ParseIn(w, ts, min, left, negated, n);
            && Reads(Print(w, left) + (Negation(negated) + [Kw(KwIn)] + ts), Print(w, r.expr) + r.rest, r.swallowed - n)
            && AllPlain(w, r.rest)
    decreases |ts|, 5
  {
    PrintsArgs(w, ts[1..]);
    var a := ParseArgs(w, ts[1..]);
    var node := InList(left, a.exprs, negated);
    PrintsLoop(w, a.rest, min, node, n + a.swallowed);
    assert Negation(negated) + [Kw(KwIn)] + ts == Negation(negated) + [Kw(KwIn), LParen] + ts[1..];
    InRule(w, left, negated, a.exprs, ts[1..], a.rest, a.swallowed);
    var r := ParseIn(w, ts, min, left, negated, n);
    ReadsThen(Print(w, left) + (Negation(negated) + [Kw(KwIn)] + ts), Print(w, node) + a.rest, Print(w, r.expr) + r.rest,
              a.swallowed, r.swallowed - n - a.swallowed);
  }

  lemma {:induction false} PrintsRange(w: Lexicon, ts: seq<Token>, min: nat, left: Expr, negated: bool, n: nat)
    requires OR <= min <= ADD && AllPlain(w, ts)
    requires ParseRange(w, ts, min, left, negated, n).Done?
    ensures var r := ParseRange(w, ts, min, left, negated, n);
            && Reads(Print(w, left) + (Negation(negated) + [Kw(KwBetween)] + ts), Print(w, r.expr) + r.rest, r.swallowed - n)
            && AllPlain(w, r.rest)
    decreases |ts|, 5
  {
    var low := ParseAt(w, ts, COMPARE);
    var mid := low.rest[1..];
    var high := ParseAt(w, mid, COMPARE);
    var node := Between(left, low.expr, high.expr, negated);
    var r := ParseLoop(w, high.rest, min, node, n + low.swallowed + high.swallowed);
    RangeStep(w, ts, min, left, negated, n, low, high);
    PrintsAt(w, ts, COMPARE);
    PrintsAt(w, mid, COMPARE);
    PrintsLoop(w, high.rest, min, node, n + low.swallowed + high.swallowed);
    SplitHead(low.rest);
    RangeRule(w, left, negated, low.expr, high.expr, ts, mid, high.rest, low.swallowed, high.swallowed);
    ReadsThen(Print(w, left) + (Negation(negated) + [Kw(KwBetween)] + ts), Print(w, node) + high.rest, Print(w, r.expr) + r.rest,
              low.swallowed + high.swallowed, r.swallowed - n - low.swallowed - high.swallowed);
  }

  lemma {:induction false} PrintsPrefix(w: Lexicon, ts: seq<Token>)
    requires AllPlain(w, ts) && ParsePrefix(w, ts).Done?
    ensures var r := ParsePrefix(w, ts); Reads(ts, Print(w, r.expr) + r.rest, r.swallowed) && AllPlain(w, r.rest)
    decreases |ts|, 2
  {
    var h := Peek(ts);
    if h == Kw(KwNot) {
      PrintsUnary(w, ts, AND);
    } else if h == Op(Minus) {
      PrintsUnary(w, ts, ADD);
    } else if h == LParen {
      PrintsParen(w, ts);
    } else if AtomOf(h).None? {
      PrintsIdent(w, ts);
    } else {
      SplitHead(ts);
      AtomPrints(w, h);
    }
  }

  lemma AtomPrints(w: Lexicon, t: Token)
    requires AtomOf(t).Some? && Plain(w, t)
    ensures Print(w, AtomOf(t).value) == [t]
  {
  }

  lemma {:induction false} PrintsParen(w: Lexicon, ts: seq<Token>)
    requires AllPlain(w, ts) && Peek(ts) == LParen && ParsePrefix(w, ts).Done?
    ensures var r := ParsePrefix(w, ts); Reads(ts, Print(w, r.expr) + r.rest, r.swallowed) && AllPlain(w, r.rest)
    decreases |ts|, 0
  {
    PrintsAt(w, ts[1..], OR);
    var x := ParseAt(w, ts[1..], OR);
    SplitHead(ts);
    SplitHead(x.rest);
    WrapRule([LParen], ts[1..], Print(w, x.expr), RParen, x.rest[1..], x.swallowed);
  }

  lemma {:induction false} PrintsUnary(w: Lexicon, ts: seq<Token>, level: nat)
    requires AllPlain(w, ts) && ts != [] && OR <= level <= ADD && ParseAt(w, ts[1..], level).Done?
    ensures var x := ParseAt(w, ts[1..], level);
            Reads(ts, [ts[0]] + Print(w, x.expr) + x.rest, x.swallowed) && AllPlain(w, x.rest)
    decreases |ts|, 0
  {
    PrintsAt(w, ts[1..], level);
    var x := ParseAt(w, ts[1..], level);
    ReadsAfter([ts[0]], ts[1..], Print(w, x.expr) + x.rest, x.swallowed);
    SplitHead(ts);
    assert [ts[0]] + (Print(w, x.expr) + x.rest) == [ts[0]] + Print(w, x.expr) + x.rest;
  }

  lemma {:induction false} PrintsIdent(w: Lexicon, ts: seq<Token>)
    requires AllPlain(w, ts) && ParseIdent(w, ts).Done?
    ensures var r := ParseIdent(w, ts); Reads(ts, Print(w, r.expr) + r.rest, r.swallowed) && AllPlain(w, r.rest)
    decreases |ts|, 1
  {
    if Peek(ts[1..]) == LParen {
      PrintsCall(w, ts);
    } else if Peek(ts[1..]) == Dot {
      PrintsDotted(w, ts);
    } else {
      assert Plain(w, ts[0]);
      SplitHead(ts);
    }
  }

  lemma {:induction false} PrintsCall(w: Lexicon, ts: seq<Token>)
    requires AllPlain(w, ts) && ParseIdent(w, ts).Done? && Peek(ts[1..]) == LParen
    ensures var r := ParseIdent(w, ts); Reads(ts, Print(w, r.expr) + r.rest, r.swallowed) && AllPlain(w, r.rest)
    decreases |ts|, 0
  {
    assert Plain(w, ts[0]);
    SplitTwo(ts);
    PrintsArgs(w, ts[2..]);
    var a := ParseArgs(w, ts[2..]);
    CallRule(ts[0], ts[2..], PrintList(w, a.exprs), a.rest, a.swallowed);
  }

  lemma PrintsDotted(w: Lexicon, ts: seq<Token>)
    requires AllPlain(w, ts) && ParseIdent(w, ts).Done? && Peek(ts[1..]) == Dot
    ensures var r := ParseIdent(w, ts); Reads(ts, Print(w, r.expr) + r.rest, r.swallowed) && AllPlain(w, r.rest)
  {
    assert Plain(w, ts[0]) && Plain(w, ts[2]);
    assert ts == [ts[0], Dot, ts[2]] + ts[3..];
    assert [ts[0], Dot] + [ts[2]] == [ts[0], Dot, ts[2]];
  }

  lemma {:induction false} PrintsArgs(w: Lexicon, ts: seq<Token>)
    requires AllPlain(w, ts) && ParseArgs(w, ts).DoneList?
    ensures var r := ParseArgs(w, ts); Reads(ts, PrintList(w, r.exprs) + [RParen] + r.rest, r.swallowed) && AllPlain(w, r.rest)
    decreases |ts|, 5
  {
    if Peek(ts) == RParen {
      assert ts == [RParen] + ts[1..];
    } else {
      PrintsList(w, ts);
      var r := ParseList(w, ts);
      SplitHead(r.rest);
      WrapRule([], ts, PrintList(w, r.exprs), RParen, r.rest[1..], r.swallowed);
    }
  }

  lemma {:induction false} PrintsList(w: Lexicon, ts: seq<Token>)
    requires AllPlain(w, ts) && ParseList(w, ts).DoneList?
    ensures var r := ParseList(w, ts); Reads(ts, PrintList(w, r.exprs) + r.rest, r.swallowed) && AllPlain(w, r.rest)
    decreases |ts|, 4
  {
    PrintsAt(w, ts, OR);
    var x := ParseAt(w, ts, OR);
    if Peek(x.rest) == Comma {
      SplitHead(x.rest);
      PrintsList(w, x.rest[1..]);
      var more := ParseList(w, x.rest[1..]);
      ListRule(w, x.expr, more.exprs, ts, x.rest[1..], more.rest, x.swallowed, more.swallowed);
    }
  }
}
