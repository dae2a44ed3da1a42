/** Parsing looks no further than it consumes, so printing and parsing again returns the same tree. */
module ParserRoundTrip {
  import opened Values
  import opened ByteStrings
  import opened Expressions
  import opened Grammar
  import opened ParserPrints

  // ----- the input may end anywhere after what was consumed -----

  /** The list without its last `k` tokens. */
  function Cut(ts: seq<Token>, k: nat): seq<Token>
    requires k <= |ts|
  {
    ts[..|ts| - k]
  }

  function CutDone(r: Parsed, k: nat): Parsed
    requires r.Done? ==> k <= |r.rest|
  {
    if r.Done? then Done(r.expr, Cut(r.rest, k), r.swallowed) else r
  }

  function CutList(r: ParsedList, k: nat): ParsedList
    requires r.DoneList? ==> k <= |r.rest|
  {
    if r.DoneList? then DoneList(r.exprs, Cut(r.rest, k), r.swallowed) else r
  }

  lemma CutHead(ts: seq<Token>, k: nat)
    requires k < |ts|
    ensures Peek(Cut(ts, k)) == Peek(ts) && Cut(ts, k)[1..] == Cut(ts[1..], k)
  {
  }

  lemma CutEnd(ts: seq<Token>, k: nat)
    requires k <= |ts|
    ensures Peek(Cut(ts, k)) == Peek(ts) || Peek(Cut(ts, k)) == Eof
  {
  }

  lemma {:induction false} CutAt(w: Lexicon, ts: seq<Token>, min: nat, k: nat)
    requires OR <= min <= ADD
    requires ParseAt(w, ts, min).Done? && k <= |ParseAt(w, ts, min).rest|
    ensures ParseAt(w, Cut(ts, k), min) == CutDone(ParseAt(w, ts, min), k)
    decreases |ts|, 3
  {
    var p := ParsePrefix(w, ts);
    CutPrefix(w, ts, k);
    CutLoop(w, p.rest, min, p.expr, p.swallowed, k);
  }

  lemma {:induction false} CutLoop(w: Lexicon, ts: seq<Token>, min: nat, left: Expr, n: nat, k: nat)
    requires OR <= min <= ADD
    requires ParseLoop(w, ts, min, left, n).Done? && k <= |ParseLoop(w, ts, min, left, n).rest|
    ensures ParseLoop(w, Cut(ts, k), min, left, n) == CutDone(ParseLoop(w, ts, min, left, n), k)
    decreases |ts|, 2
  {
    CutEnd(ts, k);
    if Peek(ts) == Kw(KwIs) {
      CutIs(w, ts, min, left, n, k);
    } else if Peek(ts) == Kw(KwIn) {
      CutHead(ts, k);
      CutIn(w, ts[1..], min, left, false, n, k);
    } else if Peek(ts) == Kw(KwNot) {
      CutNot(w, ts, min, left, n, k);
    } else {
      CutInfix(w, ts, min, left, n, k);
    }
  }

  lemma {:induction false} CutIs(w: Lexicon, ts: seq<Token>, min: nat, left: Expr, n: nat, k: nat)
    requires OR <= min <= ADD && Peek(ts) == Kw(KwIs)
    requires ParseLoop(w, ts, min, left, n).Done? && k <= |ParseLoop(w, ts, min, left, n).rest|
    ensures ParseLoop(w, Cut(ts, k), min, left, n) == CutDone(ParseLoop(w, ts, min, left, n), k)
    decreases |ts|, 1
  {
    var negated := Peek(ts[1..]) == Kw(KwNot);
    var rest := if negated then ts[2..] else ts[1..];
    CutHead(ts, k);
    CutHead(ts[1..], k);
    if negated { CutHead(rest, k); }
    CutLoop(w, rest[1..], min, IsNull(left, negated), n, k);
  }

  lemma {:induction false} CutNot(w: Lexicon, ts: seq<Token>, min: nat, left: Expr, n: nat, k: nat)
    requires OR <= min <= ADD && Peek(ts) == Kw(KwNot)
    requires ParseLoop(w, ts, min, left, n).Done? && k <= |ParseLoop(w, ts, min, left, n).rest|
    ensures ParseLoop(w, Cut(ts, k), min, left, n) == CutDone(ParseLoop(w, ts, min, left, n), k)
    decreases |ts|, 1
  {
    CutHead(ts, k);
    CutEnd(ts[1..], k);
    if Peek(ts[1..]) == Kw(KwIn) {
      CutHead(ts[1..], k);
      CutIn(w, ts[2..], min, left, true, n, k);
    } else if Peek(ts[1..]) == Kw(KwBetween) {
      CutHead(ts[1..], k);
      CutRange(w, ts[2..], min, left, true, n, k);
    } else {
      CutInfix(w, ts[1..], min, left, n + 1, k);
    }
  }

  lemma {:induction false} CutInfix(w: Lexicon, ts: seq<Token>, min: nat, left: Expr, n: nat, k: nat)
    requires OR <= min <= ADD
    requires ParseInfix(w, ts, min, left, n).Done? && k <= |ParseInfix(w, ts, min, left, n).rest|
    ensures ParseInfix(w, Cut(ts, k), min, left, n) == CutDone(ParseInfix(w, ts, min, left, n), k)
    decreases |ts|, 1
  {
    var rule := InfixRule(Peek(ts));
    CutEnd(ts, k);
    if Peek(ts) == Kw(KwBetween) {
      CutHead(ts, k);
      CutRange(w, ts[1..], min, left, false, n, k);
    } else if rule.Some? && min <= rule.value.1 {
      CutBinary(w, ts, min, left, n, k);
    }
  }

  lemma {:induction false} CutBinary(w: Lexicon, ts: seq<Token>, min: nat, left: Expr, n: nat, k: nat)
    requires OR <= min <= ADD
    requires InfixRule(Peek(ts)).Some? && min <= InfixRule(Peek(ts)).value.1
    requires ParseInfix(w, ts, min, left, n).Done? && k <= |ParseInfix(w, ts, min, left, n).rest|
    ensures ParseInfix(w, Cut(ts, k), min, left, n) == CutDone(ParseInfix(w, ts, min, left, n), k)
    decreases |ts|, 0
  {
    RuleToken(Peek(ts));
    var (op, _, level) := InfixRule(Peek(ts)).value;
    var x := ParseAt(w, ts[1..], level);
    BinaryStep(w, ts, min, left, n, x);
    CutHead(ts, k);
    CutAt(w, ts[1..], level, k);
    CutLoop(w, x.rest, min, Binary(op, left, x.expr), n + x.swallowed, k);
    BinaryStep(w, Cut(ts, k), min, left, n, CutDone(x, k));
  }

  lemma {:induction false} CutIn(w: Lexicon, ts: seq<Token>, min: nat, left: Expr, negated: bool, n: nat, k: nat)
    requires OR <= min <= ADD
    requires ParseIn(w, ts, min, left, negated, n).Done? && k <= |ParseIn(w, ts, min, left, negated, n).rest|
    ensures ParseIn(w, Cut(ts, k), min, left, negated, n) == CutDone(ParseIn(w, ts, min, left, negated, n), k)
    decreases |ts|, 5
  {
    var a := ParseArgs(w, ts[1..]);
    InStep(w, ts, min, left, negated, n, a);
    CutLoop(w, a.rest, min, InList(left, a.exprs, negated), n + a.swallowed, k);
    assert Peek(Cut(ts, k)) == LParen && Peek(Cut(ts, k)[1..]) != Kw(KwSelect) && ParseArgs(w, Cut(ts, k)[1..]) == CutList(a, k) by {
      CutHead(ts, k);
      CutHead(ts[1..], k);
      CutArgs(w, ts[1..], k);
    }
    InStep(w, Cut(ts, k), min, left, negated, n, CutList(a, k));
  }

  lemma {:induction false} CutRange(w: Lexicon, ts: seq<Token>, min: nat, left: Expr, negated: bool, n: nat, k: nat)
    requires OR <= min <= ADD
    requires ParseRange(w, ts, min, left, negated, n).Done? && k <= |ParseRange(w, ts, min, left, negated, n).rest|
    ensures ParseRange(w, Cut(ts, k), min, left, negated, n) == CutDone(ParseRange(w, ts, min, left, negated, n), k)
    decreases |ts|, 5
  {
    var low := ParseAt(w, ts, COMPARE);
    var high := ParseAt(w, low.rest[1..], COMPARE);
    RangeStep(w, ts, min, left, negated, n, low, high);
    CutBounds(w, ts, low, high, k);
    CutLoop(w, high.rest, min, Between(left, low.expr, high.expr, negated), n + low.swallowed + high.swallowed, k);
    RangeStep(w, Cut(ts, k), min, left, negated, n, CutDone(low, k), CutDone(high, k));
  }

  lemma {:induction false} CutBounds(w: Lexicon, ts: seq<Token>, low: Parsed, high: Parsed, k: nat)
    requires low.Done? && low == ParseAt(w, ts, COMPARE) && Peek(low.rest) == Kw(KwAnd)
    requires high.Done? && high == ParseAt(w, low.rest[1..], COMPARE) && k <= |high.rest|
    ensures ParseAt(w, Cut(ts, k), COMPARE) == CutDone(low, k) && Peek(Cut(low.rest, k)) == Kw(KwAnd)
    ensures ParseAt(w, Cut(low.rest, k)[1..], COMPARE) == CutDone(high, k)
    decreases |ts|, 4
  {
    CutAt(w, ts, COMPARE, k);
    CutHead(low.rest, k);
    CutAt(w, low.rest[1..], COMPARE, k);
  }

  lemma {:induction false} CutPrefix(w: Lexicon, ts: seq<Token>, k: nat)
    requires ParsePrefix(w, ts).Done? && k <= |ParsePrefix(w, ts).rest|
    ensures ParsePrefix(w, Cut(ts, k)) == CutDone(ParsePrefix(w, ts), k)
    decreases |ts|, 1
  {
    CutHead(ts, k);
    var h := Peek(ts);
    if h == Kw(KwNot) {
      CutHead(ts[1..], k);
      CutAt(w, ts[1..], AND, k);
    } else if h == Op(Minus) {
      CutAt(w, ts[1..], ADD, k);
    } else if h == LParen {
      CutParen(w, ts, k);
    } else if AtomOf(h).None? {
      CutIdent(w, ts, k);
    }
  }

  lemma {:induction false} CutParen(w: Lexicon, ts: seq<Token>, k: nat)
    requires Peek(ts) == LParen && ParsePrefix(w, ts).Done? && k <= |ParsePrefix(w, ts).rest|
    ensures ParsePrefix(w, Cut(ts, k)) == CutDone(ParsePrefix(w, ts), k)
    decreases |ts|, 0
  {
    CutHead(ts, k);
    CutHead(ts[1..], k);
    CutAt(w, ts[1..], OR, k);
    CutHead(ParseAt(w, ts[1..], OR).rest, k);
  }

  lemma {:induction false} CutIdent(w: Lexicon, ts: seq<Token>, k: nat)
    requires ParseIdent(w, ts).Done? && k <= |ParseIdent(w, ts).rest|
    ensures ParseIdent(w, Cut(ts, k)) == CutDone(ParseIdent(w, ts), k)
    decreases |ts|, 0
  {
    CutHead(ts, k);
    CutEnd(ts[1..], k);
    if Peek(ts[1..]) == LParen {
      CutHead(ts[1..], k);
      CutArgs(w, ts[2..], k);
    } else if Peek(ts[1..]) == Dot {
      CutHead(ts[1..], k);
      CutHead(ts[2..], k);
    }
  }

  lemma {:induction false} CutArgs(w: Lexicon, ts: seq<Token>, k: nat)
    requires ParseArgs(w, ts).DoneList? && k <= |ParseArgs(w, ts).rest|
    ensures ParseArgs(w, Cut(ts, k)) == CutList(ParseArgs(w, ts), k)
    decreases |ts|, 5
  {
    CutHead(ts, k);
    if Peek(ts) != RParen {
      CutListed(w, ts, k);
      CutHead(ParseList(w, ts).rest, k);
    }
  }

  lemma {:induction false} CutListed(w: Lexicon, ts: seq<Token>, k: nat)
    requires ParseList(w, ts).DoneList? && k <= |ParseList(w, ts).rest|
    ensures ParseList(w, Cut(ts, k)) == CutList(ParseList(w, ts), k)
    decreases |ts|, 4
  {
    var x := ParseAt(w, ts, OR);
    CutAt(w, ts, OR, k);
    CutEnd(x.rest, k);
    if Peek(x.rest) == Comma {
      CutHead(x.rest, k);
      CutListed(w, x.rest[1..], k);
    }
  }

  // ----- where a NOT disappears, read off the tokens alone -----

  predicate OperatorWord(t: Token) {
    t in {Kw(KwAnd), Kw(KwOr), Kw(KwLike), Kw(KwBetween), Kw(KwIn), Kw(KwIs)}
  }

  /** Whether an operand has just ended, given whether one had ended before `t`. */
  function Ended(after: bool, t: Token): bool {
    match t
    case StarMark => !after
    case Kw(KwNot) => after
    case Kw(_) => !OperatorWord(t)
    case Name(_, _) => true
    case Number(_) => true
    case Real(_) => true
    case Str(_) => true
    case RParen => true
    case Placeholder(_) => true
    case _ => false
  }

  /** No identifier is spelled like an operator. */
  predicate WordsApart(after: bool, ts: seq<Token>)
    decreases |ts|
  {
    ts == [] || (
      && (OperatorWord(ts[0]) ==> after)
      && (ts[0] == Dot ==> Peek(ts[1..]) != Kw(KwNot))
      && WordsApart(Ended(after, ts[0]), ts[1..]))
  }

  /** The NOTs that follow an operand and precede neither IN nor BETWEEN. */
  function StrayNots(after: bool, ts: seq<Token>): nat
    decreases |ts|
  {
    if ts == [] then 0
    else
      (if after && ts[0] == Kw(KwNot) && Peek(ts[1..]) !in {Kw(KwIn), Kw(KwBetween)} then 1 else 0)
      + StrayNots(Ended(after, ts[0]), ts[1..])
  }

  /** From `ts` to `rest` exactly `n` stray NOTs are passed, and an operand has ended. */
  predicate Passed(after: bool, ts: seq<Token>, rest: seq<Token>, n: int) {
    WordsApart(true, rest) && StrayNots(after, ts) == n + StrayNots(true, rest)
  }

  lemma PassOne(after: bool, ts: seq<Token>)
    requires ts != [] && WordsApart(after, ts) && (!after || ts[0] != Kw(KwNot) || Peek(ts[1..]) in {Kw(KwIn), Kw(KwBetween)})
    ensures WordsApart(Ended(after, ts[0]), ts[1..]) && StrayNots(after, ts) == StrayNots(Ended(after, ts[0]), ts[1..])
  {
  }

  lemma {:induction false} StrayAt(w: Lexicon, ts: seq<Token>, min: nat)
    requires OR <= min <= ADD && WordsApart(false, ts) && ParseAt(w, ts, min).Done?
    ensures var r := ParseAt(w, ts, min); Passed(false, ts, r.rest, r.swallowed)
    decreases |ts|, 3
  {
    var p := ParsePrefix(w, ts);
    StrayPrefix(w, ts);
    StrayLoop(w, p.rest, min, p.expr, p.swallowed);
  }

  lemma {:induction false} StrayLoop(w: Lexicon, ts: seq<Token>, min: nat, left: Expr, n: nat)
    requires OR <= min <= ADD && WordsApart(true, ts) && ParseLoop(w, ts, min, left, n).Done?
    ensures var r := ParseLoop(w, ts, min, left, n); Passed(true, ts, r.rest, r.swallowed - n)
    decreases |ts|, 2
  {
    if Peek(ts) == Kw(KwIs) {
      StrayIs(w, ts, min, left, n);
    } else if Peek(ts) == Kw(KwIn) {
      PassOne(true, ts);
      StrayIn(w, ts[1..], min, left, false, n);
    } else if Peek(ts) == Kw(KwNot) {
      StrayNot(w, ts, min, left, n);
    } else {
      StrayInfix(w, ts, min, left, n);
    }
  }

  lemma {:induction false} StrayIs(w: Lexicon, ts: seq<Token>, min: nat, left: Expr, n: nat)
    requires OR <= min <= ADD && Peek(ts) == Kw(KwIs) && WordsApart(true, ts) && ParseLoop(w, ts, min, left, n).Done?
    ensures var r := ParseLoop(w, ts, min, left, n); Passed(true, ts, r.rest, r.swallowed - n)
    decreases |ts|, 1
  {
    var negated := Peek(ts[1..]) == Kw(KwNot);
    var rest := if negated then ts[2..] else ts[1..];
    PassOne(true, ts);
    PassOne(false, ts[1..]);
    if negated { PassOne(false, rest); }
    StrayLoop(w, rest[1..], min, IsNull(left, negated), n);
  }

  lemma {:induction false} StrayNot(w: Lexicon, ts: seq<Token>, min: nat, left: Expr, n: nat)
    requires OR <= min <= ADD && Peek(ts) == Kw(KwNot) && WordsApart(true, ts) && ParseLoop(w, ts, min, left, n).Done?
    ensures var r := ParseLoop(w, ts, min, left, n); Passed(true, ts, r.rest, r.swallowed - n)
    decreases |ts|, 1
  {
    if Peek(ts[1..]) == Kw(KwIn) {
      PassOne(true, ts);
      PassOne(true, ts[1..]);
      StrayIn(w, ts[2..], min, left, true, n);
    } else if Peek(ts[1..]) == Kw(KwBetween) {
      PassOne(true, ts);
      PassOne(true, ts[1..]);
      StrayRange(w, ts[2..], min, left, true, n);
    } else {
      StrayInfix(w, ts[1..], min, left, n + 1);
    }
  }

  lemma {:induction false} StrayInfix(w: Lexicon, ts: seq<Token>, min: nat, left: Expr, n: nat)
    requires OR <= min <= ADD && WordsApart(true, ts) && ParseInfix(w, ts, min, left, n).Done?
    ensures var r := ParseInfix(w, ts, min, left, n); Passed(true, ts, r.rest, r.swallowed - n)
    decreases |ts|, 1
  {
    if Peek(ts) == Kw(KwBetween) {
      PassOne(true, ts);
      StrayRange(w, ts[1..], min, left, false, n);
    } else if InfixRule(Peek(ts)).Some? && min <= InfixRule(Peek(ts)).value.1 {
      StrayBinary(w, ts, min, left, n);
    }
  }

  lemma {:induction false} StrayBinary(w: Lexicon, ts: seq<Token>, min: nat, left: Expr, n: nat)
    requires OR <= min <= ADD && WordsApart(true, ts) && ParseInfix(w, ts, min, left, n).Done?
    requires InfixRule(Peek(ts)).Some? && min <= InfixRule(Peek(ts)).value.1
    ensures var r := ParseInfix(w, ts, min, left, n); Passed(true, ts, r.rest, r.swallowed - n)
    decreases |ts|, 0
  {
    RuleToken(Peek(ts));
    var (op, _, level) := InfixRule(Peek(ts)).value;
    var x := ParseAt(w, ts[1..], level);
    BinaryStep(w, ts, min, left, n, x);
    PassOne(true, ts);
    StrayAt(w, ts[1..], level);
    StrayLoop(w, x.rest, min, Binary(op, left, x.expr), n + x.swallowed);
  }

  lemma {:induction false} StrayIn(w: Lexicon, ts: seq<Token>, min: nat, left: Expr, negated: bool, n: nat)
    requires OR <= min <= ADD && WordsApart(false, ts) && ParseIn(w, ts, min, left, negated, n).Done?
    ensures var r := ParseIn(w, ts, min, left, negated, n); Passed(false, ts, r.rest, r.swallowed - n)
    decreases |ts|, 5
  {
    var a := ParseArgs(w, ts[1..]);
    InStep(w, ts, min, left, negated, n, a);
    PassOne(false, ts);
    StrayArgs(w, ts[1..]);
    StrayLoop(w, a.rest, min, InList(left, a.exprs, negated), n + a.swallowed);
  }

  lemma {:induction false} StrayRange(w: Lexicon, ts: seq<Token>, min: nat, left: Expr, negated: bool, n: nat)
    requires OR <= min <= ADD && WordsApart(false, ts) && ParseRange(w, ts, min, left, negated, n).Done?
    ensures var r := ParseRange(w, ts, min, left, negated, n); Passed(false, ts, r.rest, r.swallowed - n)
    decreases |ts|, 5
  {
    var low := ParseAt(w, ts, COMPARE);
    var high := ParseAt(w, low.rest[1..], COMPARE);
    RangeStep(w, ts, min, left, negated, n, low, high);
    StrayAt(w, ts, COMPARE);
    PassOne(true, low.rest);
    StrayAt(w, low.rest[1..], COMPARE);
    StrayLoop(w, high.rest, min, Between(left, low.expr, high.expr, negated), n + low.swallowed + high.swallowed);
  }

  lemma {:induction false} StrayPrefix(w: Lexicon, ts: seq<Token>)
    requires WordsApart(false, ts) && ParsePrefix(w, ts).Done?
    ensures var r := ParsePrefix(w, ts); Passed(false, ts, r.rest, r.swallowed)
    decreases |ts|, 1
  {
    PassOne(false, ts);
    var h := Peek(ts);
    if h == Kw(KwNot) {
      StrayAt(w, ts[1..], AND);
    } else if h == Op(Minus) {
      StrayAt(w, ts[1..], ADD);
    } else if h == LParen {
      StrayParen(w, ts);
    } else if AtomOf(h).None? {
      StrayIdent(w, ts);
    }
  }

  lemma {:induction false} StrayParen(w: Lexicon, ts: seq<Token>)
    requires WordsApart(false, ts) && Peek(ts) == LParen && ParsePrefix(w, ts).Done?
    ensures var r := ParsePrefix(w, ts); Passed(false, ts, r.rest, r.swallowed)
    decreases |ts|, 0
  {
    PassOne(false, ts);
    StrayAt(w, ts[1..], OR);
    PassOne(true, ParseAt(w, ts[1..], OR).rest);
  }

  lemma {:induction false} StrayIdent(w: Lexicon, ts: seq<Token>)
    requires WordsApart(false, ts) && ParseIdent(w, ts).Done? && Peek(ts) != Kw(KwNot)
    ensures var r := ParseIdent(w, ts); Passed(false, ts, r.rest, r.swallowed)
    decreases |ts|, 0
  {
    PassOne(false, ts);
    if Peek(ts[1..]) == LParen {
      PassOne(true, ts[1..]);
      StrayArgs(w, ts[2..]);
    } else if Peek(ts[1..]) == Dot {
      PassOne(true, ts[1..]);
      PassOne(false, ts[2..]);
    }
  }

  lemma {:induction false} StrayArgs(w: Lexicon, ts: seq<Token>)
    requires WordsApart(false, ts) && ParseArgs(w, ts).DoneList?
    ensures var r := ParseArgs(w, ts); Passed(false, ts, r.rest, r.swallowed)
    decreases |ts|, 5
  {
    if Peek(ts) == RParen {
      PassOne(false, ts);
    } else {
      StrayList(w, ts);
      PassOne(true, ParseList(w, ts).rest);
    }
  }

  lemma {:induction false} StrayList(w: Lexicon, ts: seq<Token>)
    requires WordsApart(false, ts) && ParseList(w, ts).DoneList?
    ensures var r := ParseList(w, ts); Passed(false, ts, r.rest, r.swallowed)
    decreases |ts|, 4
  {
    var x := ParseAt(w, ts, OR);
    StrayAt(w, ts, OR);
    if Peek(x.rest) == Comma {
      PassOne(true, x.rest);
      StrayList(w, x.rest[1..]);
    }
  }

  // ----- the main results -----

  /**
   * A parsed stream is the print of its tree followed by the rest if and only if no stray NOT was
   * passed on the way.
   */
  lemma ParsePrints(w: Lexicon, ts: seq<Token>, min: nat)
    requires OR <= min <= ADD && AllPlain(w, ts) && WordsApart(false, ts)
    requires ParseAt(w, ts, min).Done?
    ensures var r := ParseAt(w, ts, min);
            ts == Print(w, r.expr) + r.rest <==> StrayNots(false, ts) == StrayNots(true, r.rest)
  {
    PrintsAt(w, ts, min);
    StrayAt(w, ts, min);
  }

  /** Printing a parsed tree and parsing it again returns the tree. */
  lemma RoundTrip(w: Lexicon, ts: seq<Token>, min: nat)
    requires OR <= min <= ADD && AllPlain(w, ts) && WordsApart(false, ts)
    requires ParseAt(w, ts, min).Done?
    requires StrayNots(false, ts) == StrayNots(true, ParseAt(w, ts, min).rest)
    ensures var e := ParseAt(w, ts, min).expr;
            ParseAt(w, Print(w, e), min) == Done(e, [], 0)
  {
    var r := ParseAt(w, ts, min);
    PrintsAt(w, ts, min);
    StrayAt(w, ts, min);
    CutAt(w, ts, min, |r.rest|);
    assert Cut(ts, |r.rest|) == Print(w, r.expr) && Cut(r.rest, |r.rest|) == [];
  }

  /** A stream parsed to its end is the print of its tree, and parses from it again, if and only if it holds no stray NOT. */
  lemma WholePrints(w: Lexicon, ts: seq<Token>)
    requires AllPlain(w, ts) && WordsApart(false, ts)
    requires ParseAt(w, ts, OR).Done? && ParseAt(w, ts, OR).rest == []
    ensures var e := ParseAt(w, ts, OR).expr;
            && (ts == Print(w, e) <==> StrayNots(false, ts) == 0)
            && (StrayNots(false, ts) == 0 ==> ParseAt(w, Print(w, e), OR) == Done(e, [], 0))
  {
    ParsePrints(w, ts, OR);
    assert Print(w, ParseAt(w, ts, OR).expr) + [] == Print(w, ParseAt(w, ts, OR).expr);
    if StrayNots(false, ts) == 0 { RoundTrip(w, ts, OR); }
  }

  // ----- what a stray NOT does -----

  lemma ParseNameAt(w: Lexicon, a: Bytes, ts: seq<Token>)
    requires Peek(ts) != LParen && Peek(ts) != Dot
    ensures ParsePrefix(w, [Name(a, false)] + ts) == Done(Column(None, a), ts, 0)
  {
    assert ([Name(a, false)] + ts)[1..] == ts;
  }

  lemma ParseLast(w: Lexicon, a: Bytes, min: nat)
    requires OR <= min <= ADD
    ensures ParseAt(w, [Name(a, false)], min) == Done(Column(None, a), [], 0)
  {
    ParseNameAt(w, a, []);
    assert [Name(a, false)] + [] == [Name(a, false)];
  }

  /** `a NOT LIKE b` parses to the tree of `a LIKE b`. */
  lemma NotLikeLosesNot(w: Lexicon, a: Bytes, b: Bytes)
    ensures var tree := Binary(LikeOp, Column(None, a), Column(None, b));
            && ParseAt(w, [Name(a, false), Kw(KwNot), Kw(KwLike), Name(b, false)], OR) == Done(tree, [], 1)
            && ParseAt(w, [Name(a, false), Kw(KwLike), Name(b, false)], OR) == Done(tree, [], 0)
  {
    var like := [Kw(KwLike), Name(b, false)];
    ParseLast(w, b, COMPARE);
    assert like[1..] == [Name(b, false)];
    BinaryStep(w, like, OR, Column(None, a), 0, Done(Column(None, b), [], 0));
    BinaryStep(w, like, OR, Column(None, a), 1, Done(Column(None, b), [], 0));
    ParseNameAt(w, a, like);
    assert [Name(a, false)] + like == [Name(a, false), Kw(KwLike), Name(b, false)];
    var not := [Kw(KwNot)] + like;
    assert not[1..] == like;
    ParseNameAt(w, a, not);
    assert [Name(a, false)] + not == [Name(a, false), Kw(KwNot), Kw(KwLike), Name(b, false)];
  }
}
