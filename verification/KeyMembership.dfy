/** `x [NOT] IN (values)`: the standard's answer against membership by key bytes. */
module KeyMembership {
  import opened ByteStrings
  import opened Values

  // ----- the standard -----

  /** Equality in the standard: unknown as soon as a NULL takes part (section 8.2 of SQL-92). */
  function StandardEq(env: Env, a: Value, b: Value): Option<bool> {
    if a.Null? || b.Null? then None else SqlEq(env, a, b)
  }

  predicate AnyEq(env: Env, x: Value, values: seq<Value>, answer: Option<bool>) {
    exists i :: 0 <= i < |values| && StandardEq(env, x, values[i]) == answer
  }

  /** True, false, or NULL for unknown (section 8.4 of SQL-92). */
  function Membership(env: Env, x: Value, values: seq<Value>, negated: bool): Value {
    if AnyEq(env, x, values, Some(true)) then Bool(!negated)
    else if AnyEq(env, x, values, None) then Null
    else Bool(negated)
  }

  // ----- the keys -----

  function KeysOf(env: Env, values: seq<Value>): set<Bytes> {
    set i | 0 <= i < |values| :: AsBytes(env, values[i])
  }

  /** The row passes the test by key. */
  predicate KeyTest(env: Env, x: Value, values: seq<Value>, negated: bool) {
    (AsBytes(env, x) in KeysOf(env, values)) != negated
  }

  // ----- how two cells compare -----

  /**
   * Two cells by value and by key: equal or unknown or different, under one key or two. `Twin` cells
   * are equal under two keys, `Alias` cells different under one, `Blur` cells unknown under one and
   * `Open` cells unknown under two.
   */
  datatype Tie = Same | Twin | Alias | Blur | Open | Apart

  function MakeTie(equal: Option<bool>, oneKey: bool): Tie {
    match equal
    case Some(true) => if oneKey then Same else Twin
    case Some(false) => if oneKey then Alias else Apart
    case None => if oneKey then Blur else Open
  }

  function EightBytes(n: int): Bytes {
    BigEndian(n % TwoTo64, 8)
  }

  function BoolByte(b: bool): Byte {
    if b then 1 else 0
  }

  /** A text cell and a number: equal when the text reads as the number, unknown when it reads as none. */
  function NumberTie(env: Env, t: Bytes, number: real, bytes: Bytes): Tie {
    MakeTie(match env.number(t) case Some(y) => Some(y == number) case None => None, t == bytes)
  }

  /** NULL and the empty string share a key, and so do a text and the eight bytes of a number. */
  function TieOf(env: Env, a: Value, b: Value): Tie {
    match (a, b)
    case (Null, Null) => Blur
    case (Null, Text(t)) => MakeTie(None, t == [])
    case (Text(t), Null) => MakeTie(None, t == [])
    case (Null, Float(y)) => MakeTie(None, env.floatBytes(y) == [])
    case (Float(x), Null) => MakeTie(None, env.floatBytes(x) == [])
    case (Null, _) => Open
    case (_, Null) => Open
    case (Text(s), Text(t)) => MakeTie(Some(s == t), s == t)
    case (Text(t), Integer(n)) => NumberTie(env, t, n as real, EightBytes(n))
    case (Integer(n), Text(t)) => NumberTie(env, t, n as real, EightBytes(n))
    case (Text(t), Float(y)) => NumberTie(env, t, y, env.floatBytes(y))
    case (Float(x), Text(t)) => NumberTie(env, t, x, env.floatBytes(x))
    case (Text(t), Bool(p)) => MakeTie(Some(|t| == 1 && p == (t[0] != 0)), t == [BoolByte(p)])
    case (Bool(p), Text(t)) => MakeTie(Some(|t| == 1 && p == (t[0] != 0)), t == [BoolByte(p)])
    case (Integer(m), Integer(n)) => MakeTie(Some(m == n), m % TwoTo64 == n % TwoTo64)
    case (Integer(m), Float(y)) => MakeTie(Some(m as real == y), EightBytes(m) == env.floatBytes(y))
    case (Float(x), Integer(n)) => MakeTie(Some(x == n as real), env.floatBytes(x) == EightBytes(n))
    case (Float(x), Float(y)) => MakeTie(Some(x == y), env.floatBytes(x) == env.floatBytes(y))
    case (Float(x), Bool(p)) => MakeTie(Some(false), env.floatBytes(x) == [BoolByte(p)])
    case (Bool(p), Float(y)) => MakeTie(Some(false), env.floatBytes(y) == [BoolByte(p)])
    case (Bool(p), Bool(q)) => MakeTie(Some(p == q), p == q)
    case _ => Apart
  }

  lemma {:induction false} BigEndianInjective(m: nat, n: nat, width: nat)
    requires BigEndian(m, width) == BigEndian(n, width) && m < Power256(width) && n < Power256(width)
    ensures m == n
  {
    if width > 0 {
      var a, b := BigEndian(m / 256, width - 1), BigEndian(n / 256, width - 1);
      assert BigEndian(m, width)[..width - 1] == a && BigEndian(n, width)[..width - 1] == b;
      assert BigEndian(m, width)[width - 1] == m % 256 && BigEndian(n, width)[width - 1] == n % 256;
      BigEndianInjective(m / 256, n / 256, width - 1);
    }
  }

  function Power256(width: nat): nat {
    if width == 0 then 1 else 256 * Power256(width - 1)
  }

  lemma EightBytesInjective(m: int, n: int)
    ensures EightBytes(m) == EightBytes(n) <==> m % TwoTo64 == n % TwoTo64
  {
    assert Power256(8) == 256 * Power256(7) && Power256(7) == 256 * Power256(6) && Power256(6) == 256 * Power256(5);
    assert Power256(5) == 256 * Power256(4) && Power256(4) == 256 * Power256(3) && Power256(3) == 256 * Power256(2);
    assert Power256(2) == 65536;
    if EightBytes(m) == EightBytes(n) { BigEndianInjective(m % TwoTo64, n % TwoTo64, 8); }
  }

  /** A tie is the standard's comparison together with equality of the keys. */
  lemma TieExact(env: Env, a: Value, b: Value)
    ensures TieOf(env, a, b) == MakeTie(StandardEq(env, a, b), AsBytes(env, a) == AsBytes(env, b))
  {
    if a.Integer? && b.Integer? { EightBytesInjective(a.n, b.n); }
  }

  // ----- when the key test is the standard's -----

  predicate Has(env: Env, x: Value, values: seq<Value>, tie: Tie) {
    exists i :: 0 <= i < |values| && TieOf(env, x, values[i]) == tie
  }

  /**
   * IN: a value equal under its own key settles it; otherwise a key shared by accident must come
   * together with an equal value that the key misses. NOT IN likewise, where unknown counts with equal.
   */
  predicate KeysAgree(env: Env, x: Value, values: seq<Value>, negated: bool) {
    if negated then
      || Has(env, x, values, Same) || Has(env, x, values, Blur)
      || (Has(env, x, values, Alias) <==> Has(env, x, values, Twin) || Has(env, x, values, Open))
    else
      || Has(env, x, values, Same)
      || (Has(env, x, values, Alias) || Has(env, x, values, Blur) <==> Has(env, x, values, Twin))
  }

  lemma KeyedByTies(env: Env, x: Value, values: seq<Value>)
    ensures AsBytes(env, x) in KeysOf(env, values)
       <==> Has(env, x, values, Same) || Has(env, x, values, Alias) || Has(env, x, values, Blur)
  {
    forall i | 0 <= i < |values|
      ensures AsBytes(env, x) == AsBytes(env, values[i]) <==> TieOf(env, x, values[i]) in {Same, Alias, Blur}
    {
      TieExact(env, x, values[i]);
    }
    forall i | 0 <= i < |values| ensures AsBytes(env, values[i]) in KeysOf(env, values) { }
  }

  lemma EqualByTies(env: Env, x: Value, values: seq<Value>)
    ensures AnyEq(env, x, values, Some(true)) <==> Has(env, x, values, Same) || Has(env, x, values, Twin)
    ensures AnyEq(env, x, values, None) <==> Has(env, x, values, Blur) || Has(env, x, values, Open)
  {
    forall i | 0 <= i < |values|
      ensures StandardEq(env, x, values[i]) == Some(true) <==> TieOf(env, x, values[i]) in {Same, Twin}
      ensures StandardEq(env, x, values[i]) == None <==> TieOf(env, x, values[i]) in {Blur, Open}
    {
      TieExact(env, x, values[i]);
    }
  }

  /** The cells fail the key test. */
  predicate Missed(env: Env, x: Value, values: seq<Value>, negated: bool) {
    (Has(env, x, values, Same) || Has(env, x, values, Alias) || Has(env, x, values, Blur)) == negated
  }

  /** The standard's answer on the cells is false or unknown. */
  predicate Untrue(env: Env, x: Value, values: seq<Value>, negated: bool) {
    var equal := Has(env, x, values, Same) || Has(env, x, values, Twin);
    if negated then equal || Has(env, x, values, Blur) || Has(env, x, values, Open) else !equal
  }

  /** For all cells: the key test, the standard's answer, and exactly when they are the same. */
  lemma InStandard(env: Env, x: Value, values: seq<Value>, negated: bool)
    ensures KeyTest(env, x, values, negated) <==> !Missed(env, x, values, negated)
    ensures Membership(env, x, values, negated) == Bool(true) <==> !Untrue(env, x, values, negated)
    ensures KeyTest(env, x, values, negated) == (Membership(env, x, values, negated) == Bool(true)) <==> KeysAgree(env, x, values, negated)
  {
    KeyedByTies(env, x, values);
    EqualByTies(env, x, values);
  }

  // ----- a text cell against text, NULL and integers -----

  /** Some integer equals the number the text reads as. */
  predicate EqualNumber(env: Env, s: Bytes, values: seq<Value>) {
    exists i :: 0 <= i < |values| && values[i].Integer? && env.number(s) == Some(values[i].n as real)
  }

  /** Some integer has the text as its eight bytes. */
  predicate SameBytes(s: Bytes, values: seq<Value>) {
    exists i :: 0 <= i < |values| && values[i].Integer? && s == EightBytes(values[i].n)
  }

  predicate AnyInteger(values: seq<Value>) {
    exists i :: 0 <= i < |values| && values[i].Integer?
  }

  predicate Whole(v: Value) {
    v.Text? || v.Null? || v.Integer?
  }

  /** A text against text, NULL and integer cells: the condition in terms of the cells. */
  predicate TextAgrees(env: Env, s: Bytes, values: seq<Value>, negated: bool) {
    || Text(s) in values
    || ((s == [] && Null in values) || SameBytes(s, values) <==>
          || EqualNumber(env, s, values)
          || (negated && (Null in values || (env.number(s).None? && AnyInteger(values)))))
  }

  lemma TextKeyed(env: Env, s: Bytes, values: seq<Value>)
    requires forall i :: 0 <= i < |values| ==> Whole(values[i])
    ensures AsBytes(env, Text(s)) in KeysOf(env, values) <==> Text(s) in values || (s == [] && Null in values) || SameBytes(s, values)
  {
    if i :| 0 <= i < |values| && AsBytes(env, values[i]) == s {
      assert values[i] in values;
    }
    forall i | 0 <= i < |values| ensures AsBytes(env, values[i]) in KeysOf(env, values) { }
  }

  lemma TextEqual(env: Env, s: Bytes, values: seq<Value>)
    requires forall i :: 0 <= i < |values| ==> Whole(values[i])
    ensures AnyEq(env, Text(s), values, Some(true)) <==> Text(s) in values || EqualNumber(env, s, values)
    ensures AnyEq(env, Text(s), values, None) <==> Null in values || (env.number(s).None? && AnyInteger(values))
  {
    forall i | 0 <= i < |values|
      ensures StandardEq(env, Text(s), values[i]) == match values[i]
                case Null => None
                case Integer(n) => (match env.number(s) case Some(y) => Some(y == n as real) case None => None)
                case _ => Some(values[i] == Text(s))
    {
    }
  }

  lemma TextAgreesExact(env: Env, s: Bytes, values: seq<Value>, negated: bool)
    requires forall i :: 0 <= i < |values| ==> Whole(values[i])
    ensures KeysAgree(env, Text(s), values, negated) <==> TextAgrees(env, s, values, negated)
  {
    InStandard(env, Text(s), values, negated);
    TextKeyed(env, s, values);
    TextEqual(env, s, values);
  }

  /** A NULL is always unknown: IN must find no key, NOT IN must find one unless there are no values. */
  lemma NullAgreesExact(env: Env, values: seq<Value>, negated: bool)
    requires forall i :: 0 <= i < |values| ==> Whole(values[i])
    ensures KeysAgree(env, Null, values, negated) <==> ((Null in values || Text([]) in values) == (negated && values != []))
  {
    forall i | 0 <= i < |values| ensures TieOf(env, Null, values[i]) == if values[i] in [Null, Text([])] then Blur else Open { }
    if values != [] { assert TieOf(env, Null, values[0]) in {Blur, Open}; }
  }

  // ----- inputs -----

  /** `'a' NOT IN (NULL)` and `'' IN (NULL)` are unknown, and the key test passes both. */
  lemma NullsDisagree(env: Env)
    ensures var key: Value, empty: Value := Text([97]), Text([]);
            && Membership(env, key, [Null], true) == Null && KeyTest(env, key, [Null], true)
            && Membership(env, empty, [Null], false) == Null && KeyTest(env, empty, [Null], false)
  {
    TextEqual(env, [97], [Null]);
    TextEqual(env, [], [Null]);
    TextKeyed(env, [97], [Null]);
    TextKeyed(env, [], [Null]);
  }
}
