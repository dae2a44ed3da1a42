/** PARTITION BY: the byte key that gathers the rows of one partition. */
module PartitionKeys {
  import opened ByteStrings
  import opened Values
  import opened Expressions

  /** The partition expressions on a row, or the first error. */
  function KeyValues(env: Env, exprs: seq<Expr>, row: Row): (r: Result<seq<Value>>)
    ensures r.Ok? ==> |r.value| == |exprs|
  {
    if exprs == [] then Ok([])
    else
      var n := |exprs| - 1;
      match KeyValues(env, exprs[..n], row)
      case Err(e) => Err(e)
      case Ok(values) => match Eval(env, exprs[n], row)
        case Err(e) => Err(e)
        case Ok(v) => Ok(values + [v])
  }

  /** The bytes of each value, followed by a zero byte. */
  function JoinValues(env: Env, values: seq<Value>): Bytes {
    if values == [] then [] else Seg(AsBytes(env, values[0]), JoinValues(env, values[1..]))
  }

  lemma {:induction false} JoinSnoc(env: Env, values: seq<Value>, v: Value)
    ensures JoinValues(env, values + [v]) == JoinValues(env, values) + AsBytes(env, v) + [NUL]
  {
    if values == [] {
      assert [v][1..] == [];
      assert JoinValues(env, [v][1..]) == [];
      assert values + [v] == [v];
    } else {
      assert (values + [v])[1..] == values[1..] + [v];
      JoinSnoc(env, values[1..], v);
    }
  }

  function PartitionKey(env: Env, exprs: seq<Expr>, row: Row): Result<Bytes> {
    match KeyValues(env, exprs, row) case Err(e) => Err(e) case Ok(values) => Ok(JoinValues(env, values))
  }

  lemma {:induction false} KeyStops(env: Env, exprs: seq<Expr>, row: Row, i: nat)
    requires i <= |exprs| && KeyValues(env, exprs[..i], row).Err?
    ensures KeyValues(env, exprs, row) == KeyValues(env, exprs[..i], row)
    decreases |exprs| - i
  {
    if i == |exprs| {
      TakeAll(exprs);
    } else {
      TakeStep(exprs, i);
      KeyStops(env, exprs, row, i + 1);
    }
  }

  method ComputePartitionKey(env: Env, exprs: seq<Expr>, row: Row) returns (r: Result<Bytes>)
    ensures r == PartitionKey(env, exprs, row)
  {
    var key: Bytes := [];
    ghost var values: seq<Value> := [];
    for i := 0 to |exprs|
      invariant KeyValues(env, exprs[..i], row) == Ok(values) && key == JoinValues(env, values)
    {
      TakeStep(exprs, i);
      var v := Eval(env, exprs[i], row);
      if v.Err? {
        KeyStops(env, exprs, row, i + 1);
        return Err(v.error);
      }
      key := key + AsBytes(env, v.value);
      key := key + [NUL];
      JoinSnoc(env, values, v.value);
      values := values + [v.value];
    }
    TakeAll(exprs);
    r := Ok(key);
  }

  // ----- when two rows share a partition -----

  /** NULL and the empty string are the same partition cell. */
  predicate SameCell(a: Value, b: Value) {
    a == b || (a == Null && b == Text([])) || (a == Text([]) && b == Null)
  }

  predicate SameCells(a: seq<Value>, b: seq<Value>) {
    |a| == |b| && forall i :: 0 <= i < |a| ==> SameCell(a[i], b[i])
  }

  /** Text without zero bytes, or NULL. */
  predicate Plain(values: seq<Value>) {
    forall i :: 0 <= i < |values| ==> values[i].Null? || (values[i].Text? && NulFree(values[i].bytes))
  }

  lemma {:induction false} JoinFaithful(env: Env, a: seq<Value>, b: seq<Value>)
    requires Plain(a) && Plain(b)
    ensures JoinValues(env, a) == JoinValues(env, b) <==> SameCells(a, b)
  {
    if a != [] && b != [] {
      SegInjective(AsBytes(env, a[0]), JoinValues(env, a[1..]), AsBytes(env, b[0]), JoinValues(env, b[1..]));
      JoinFaithful(env, a[1..], b[1..]);
      SameCellsSplit(a, b);
    }
  }

  lemma SameCellsSplit(a: seq<Value>, b: seq<Value>)
    requires a != [] && b != []
    ensures SameCells(a, b) <==> SameCell(a[0], b[0]) && SameCells(a[1..], b[1..])
  {
    if SameCell(a[0], b[0]) && SameCells(a[1..], b[1..]) {
      forall i | 0 <= i < |a| ensures SameCell(a[i], b[i]) {
        if i > 0 { assert a[i] == a[1..][i - 1] && b[i] == b[1..][i - 1]; }
      }
    }
  }

  /** On text without zero bytes and NULL, rows share a partition exactly when their cells agree, NULL counting as ''. */
  lemma PartitionFaithful(env: Env, exprs: seq<Expr>, a: Row, b: Row)
    requires KeyValues(env, exprs, a).Ok? && KeyValues(env, exprs, b).Ok?
    requires Plain(KeyValues(env, exprs, a).value) && Plain(KeyValues(env, exprs, b).value)
    ensures PartitionKey(env, exprs, a) == PartitionKey(env, exprs, b)
       <==> SameCells(KeyValues(env, exprs, a).value, KeyValues(env, exprs, b).value)
  {
    JoinFaithful(env, KeyValues(env, exprs, a).value, KeyValues(env, exprs, b).value);
  }

  lemma JoinTwo(env: Env, x: Bytes, y: Bytes)
    ensures JoinValues(env, [Text(x), Text(y)]) == Seg(x, Seg(y, []))
  {
    var two := [Text(x), Text(y)];
    assert two[1..] == [Text(y)] && two[1..][1..] == [];
    assert JoinValues(env, two[1..][1..]) == [];
  }

  lemma SeamShifts(x: Bytes, y: Bytes, rest: Bytes)
    ensures Seg(x + [NUL], Seg(y, rest)) == Seg(x, Seg([NUL] + y, rest))
  {
    calc {
      Seg(x + [NUL], Seg(y, rest));
      x + [NUL] + [NUL] + (y + [NUL] + rest);
      x + [NUL] + ([NUL] + y + [NUL] + rest);
      Seg(x, Seg([NUL] + y, rest));
    }
  }

  /** A zero byte at the seam of two cells puts different rows into one partition. */
  lemma PartitionCollision(env: Env, x: Bytes, y: Bytes)
    ensures var a, b := [Text(x + [NUL]), Text(y)], [Text(x), Text([NUL] + y)];
            JoinValues(env, a) == JoinValues(env, b) && !SameCells(a, b)
  {
    var a, b := [Text(x + [NUL]), Text(y)], [Text(x), Text([NUL] + y)];
    JoinTwo(env, x + [NUL], y);
    JoinTwo(env, x, [NUL] + y);
    SeamShifts(x, y, []);
    assert |a[0].bytes| > |b[0].bytes|;
  }

  // ----- exactly when a partition key is ambiguous -----

  predicate TextCells(values: seq<Value>) {
    forall i :: 0 <= i < |values| ==> values[i].Null? || values[i].Text?
  }

  lemma {:induction false} JoinAppend(env: Env, a: seq<Value>, b: seq<Value>)
    ensures JoinValues(env, a + b) == JoinValues(env, a) + JoinValues(env, b)
  {
    if a == [] {
      assert a + b == b;
    } else {
      assert (a + b)[1..] == a[1..] + b;
      JoinAppend(env, a[1..], b);
    }
  }

  function Zeros(s: Bytes): nat {
    if s == [] then 0 else Zeros(s[1..]) + if s[0] == NUL then 1 else 0
  }

  lemma {:induction false} ZerosAppend(s: Bytes, t: Bytes)
    ensures Zeros(s + t) == Zeros(s) + Zeros(t)
  {
    if s == [] {
      assert s + t == t;
    } else {
      assert (s + t)[1..] == s[1..] + t;
      ZerosAppend(s[1..], t);
    }
  }

  lemma {:induction false} NoZeros(s: Bytes)
    ensures Zeros(s) == 0 <==> NulFree(s)
  {
    if s != [] {
      NoZeros(s[1..]);
      assert s == [s[0]] + s[1..];
    }
  }

  /** A key has a zero byte for each cell, and another for each zero byte in a cell. */
  lemma {:induction false} JoinZeros(env: Env, values: seq<Value>)
    requires TextCells(values)
    ensures Zeros(JoinValues(env, values)) >= |values|
    ensures Zeros(JoinValues(env, values)) == |values| <==> Plain(values)
  {
    if values != [] {
      JoinZeros(env, values[1..]);
      var cell := AsBytes(env, values[0]);
      NoZeros(cell);
      ZerosAppend(cell + [NUL], JoinValues(env, values[1..]));
      ZerosAppend(cell, [NUL]);
      assert Zeros([NUL]) == 1 by { assert [NUL][1..] == []; }
      assert Plain(values) <==> NulFree(cell) && Plain(values[1..]) by {
        assert forall i :: 0 < i < |values| ==> values[i] == values[1..][i - 1];
      }
    }
  }

  /** Replace two neighbouring cells. */
  lemma JoinSplice(env: Env, a: seq<Value>, i: nat, x: Bytes, y: Bytes) returns (b: seq<Value>)
    requires i + 1 < |a| && TextCells(a)
    requires Seg(AsBytes(env, a[i]), Seg(AsBytes(env, a[i + 1]), [])) == Seg(x, Seg(y, []))
    ensures |b| == |a| && TextCells(b) && b[i] == Text(x) && JoinValues(env, b) == JoinValues(env, a)
  {
    var pair, other := [a[i], a[i + 1]], [Text(x), Text(y)];
    b := a[..i] + other + a[i + 2..];
    assert a == a[..i] + pair + a[i + 2..];
    JoinAppend(env, a[..i] + pair, a[i + 2..]);
    JoinAppend(env, a[..i], pair);
    JoinAppend(env, a[..i] + other, a[i + 2..]);
    JoinAppend(env, a[..i], other);
    PairJoined(env, a[i], a[i + 1]);
    PairJoined(env, Text(x), Text(y));
  }

  lemma PairJoined(env: Env, a: Value, b: Value)
    ensures JoinValues(env, [a, b]) == Seg(AsBytes(env, a), Seg(AsBytes(env, b), []))
  {
    var two := [a, b];
    assert two[1..] == [b] && two[1..][1..] == [];
    assert JoinValues(env, two[1..][1..]) == [];
  }

  lemma SplitAtZero(s: Bytes) returns (p: Bytes, q: Bytes)
    requires !NulFree(s)
    ensures s == Seg(p, q)
  {
    var k :| 0 <= k < |s| && s[k] == NUL;
    p, q := s[..k], s[k + 1..];
  }

  lemma SegMoves(p: Bytes, q: Bytes, y: Bytes)
    ensures Seg(Seg(p, q), Seg(y, [])) == Seg(p, Seg(Seg(q, y), []))
  {
    assert Seg(Seg(p, q), Seg(y, [])) == p + [NUL] + (q + [NUL] + y + [NUL]);
    assert Seg(p, Seg(Seg(q, y), [])) == p + [NUL] + (q + [NUL] + y + [NUL]);
  }

  lemma OtherCells(env: Env, a: seq<Value>, i: nat) returns (b: seq<Value>)
    requires TextCells(a) && |a| >= 2 && i < |a| && !NulFree(AsBytes(env, a[i]))
    ensures |b| == |a| && TextCells(b) && JoinValues(env, b) == JoinValues(env, a) && !SameCells(a, b)
  {
    var p, q := SplitAtZero(AsBytes(env, a[i]));
    if i + 1 < |a| {
      var y := AsBytes(env, a[i + 1]);
      SegMoves(p, q, y);
      b := JoinSplice(env, a, i, p, Seg(q, y));
      assert |a[i].bytes| > |p| && !SameCell(a[i], b[i]);
    } else {
      var x := AsBytes(env, a[i - 1]);
      SegMoves(x, p, q);
      b := JoinSplice(env, a, i - 1, Seg(x, p), q);
      assert |Seg(x, p)| > |x| && !SameCell(a[i - 1], b[i - 1]);
    }
  }

  /** Other cells share the partition exactly when there are two expressions or more and some cell holds a zero byte. */
  lemma PartitionAmbiguous(env: Env, a: seq<Value>)
    requires TextCells(a)
    ensures (exists b :: |b| == |a| && TextCells(b) && JoinValues(env, b) == JoinValues(env, a) && !SameCells(a, b))
       <==> |a| >= 2 && !Plain(a)
  {
    if b :| |b| == |a| && TextCells(b) && JoinValues(env, b) == JoinValues(env, a) && !SameCells(a, b) {
      if Plain(a) {
        JoinZeros(env, a);
        JoinZeros(env, b);
        JoinFaithful(env, a, b);
      } else if |a| == 1 {
        SingleCell(env, a, b);
      }
    }
    if |a| >= 2 && !Plain(a) {
      var i :| 0 <= i < |a| && !(a[i].Null? || (a[i].Text? && NulFree(a[i].bytes)));
      var b := OtherCells(env, a, i);
    }
  }

  lemma SingleCell(env: Env, a: seq<Value>, b: seq<Value>)
    requires |a| == |b| == 1 && TextCells(a) && TextCells(b) && JoinValues(env, a) == JoinValues(env, b)
    ensures SameCells(a, b)
  {
    var x, y := AsBytes(env, a[0]), AsBytes(env, b[0]);
    assert JoinValues(env, a[1..]) == [] && JoinValues(env, b[1..]) == [];
    assert Seg(x, [])[..|x|] == x && Seg(y, [])[..|y|] == y && Seg(x, []) == Seg(y, []);
  }
}
