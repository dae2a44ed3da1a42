/** `IN (SELECT ...)` in WHERE: peeled out of the AND tree and run as hash semi-joins. */
module Subqueries {
  import opened ByteStrings
  import opened Values
  import opened Columns
  import opened Expressions
  import opened Joins
  import opened KeyLookup
  import opened KeyMembership

  /** A peeled predicate: the outer column, the subquery and its NOT. */
  datatype Sub = Sub(outer: Expr, query: nat, negated: bool)

  /** The rows a subquery returns, and the name under which its keys are looked up. */
  datatype Answer = Answer(rows: seq<Row>, column: Bytes)

  type Answers = nat -> Answer

  // ----- peeling -----

  function Both(l: Option<Expr>, r: Option<Expr>): Option<Expr> {
    match (l, r)
    case (None, _) => r
    case (_, None) => l
    case (Some(a), Some(b)) => Some(Binary(And, a, b))
  }

  /** What stays in WHERE. */
  function Rest(e: Expr): Option<Expr> {
    match e
    case InSubquery(_, _, _) => None
    case Binary(And, l, r) => Both(Rest(l), Rest(r))
    case _ => Some(e)
  }

  /** What is taken out, left to right. */
  function Subs(e: Expr): seq<Sub> {
    match e
    case InSubquery(x, q, negated) => [Sub(x, q, negated)]
    case Binary(And, l, r) => Subs(l) + Subs(r)
    case _ => []
  }

  method PeelExpr(e: Expr, subs: seq<Sub>) returns (rest: Option<Expr>, more: seq<Sub>)
    ensures rest == Rest(e) && more == subs + Subs(e)
    decreases e
  {
    match e
    case InSubquery(x, q, negated) =>
      return None, subs + [Sub(x, q, negated)];
    case Binary(op, left, right) =>
      if op != And { return Some(e), subs; }
      var l, middle := PeelExpr(left, subs);
      var r, all := PeelExpr(right, middle);
      assert middle + Subs(right) == subs + (Subs(left) + Subs(right));
      return Both(l, r), all;
    case _ =>
      return Some(e), subs;
  }

  // ----- hash semi-join -----

  function RightKeys(env: Env, rows: seq<Row>, column: Bytes): set<Bytes> {
    if rows == [] then {}
    else
      var n := |rows| - 1;
      RightKeys(env, rows[..n], column) + match JoinKey(env, rows[n], column) case Some(k) => {k} case None => {}
  }

  predicate Passes(env: Env, keys: set<Bytes>, column: Bytes, negated: bool, row: Row) {
    var key := JoinKey(env, row, column);
    key.Some? && (key.value in keys) != negated
  }

  function SemiJoined(env: Env, rows: seq<Row>, keys: set<Bytes>, column: Bytes, negated: bool): seq<Row> {
    if rows == [] then []
    else
      var n := |rows| - 1;
      SemiJoined(env, rows[..n], keys, column, negated) + if Passes(env, keys, column, negated, rows[n]) then [rows[n]] else []
  }

  method SemiJoin(env: Env, left: seq<Row>, right: seq<Row>, leftKey: Bytes, rightKey: Bytes, negated: bool) returns (out: seq<Row>)
    ensures out == SemiJoined(env, left, RightKeys(env, right, rightKey), leftKey, negated)
  {
    var keys: set<Bytes> := {};
    for i := 0 to |right|
      invariant keys == RightKeys(env, right[..i], rightKey)
    {
      TakeStep(right, i);
      var key := JoinKey(env, right[i], rightKey);
      if key.Some? { keys := keys + {key.value}; }
    }
    TakeAll(right);
    out := [];
    for i := 0 to |left|
      invariant out == SemiJoined(env, left[..i], keys, leftKey, negated)
    {
      TakeStep(left, i);
      var key := JoinKey(env, left[i], leftKey);
      if key.None? { continue; }
      var member := key.value in keys;
      if negated {
        if !member { out := out + [left[i]]; }
      } else if member {
        out := out + [left[i]];
      }
    }
    TakeAll(left);
  }

  // ----- the direct reading of the tree -----

  /** The first cell of each row. */
  function FirstCells(rows: seq<Row>): seq<Value> {
    if rows == [] then []
    else
      var n := |rows| - 1;
      FirstCells(rows[..n]) + if rows[n] == [] then [] else [rows[n][0].1]
  }

  /** The first cell of every row is the one that the key lookup finds. */
  predicate Readable(a: Answer) {
    forall i :: 0 <= i < |a.rows| ==> a.rows[i] != [] && NameMatches(a.rows[i][0].0, a.column)
  }

  lemma KeysSnoc(env: Env, values: seq<Value>, v: Value)
    ensures KeysOf(env, values + [v]) == KeysOf(env, values) + {AsBytes(env, v)}
  {
    var all := values + [v];
    assert all[|values|] == v;
    forall i | 0 <= i < |values| ensures AsBytes(env, values[i]) in KeysOf(env, all) { assert all[i] == values[i]; }
  }

  lemma {:induction false} RightKeysAre(env: Env, a: Answer)
    requires Readable(a)
    ensures RightKeys(env, a.rows, a.column) == KeysOf(env, FirstCells(a.rows))
    decreases |a.rows|
  {
    if a.rows != [] {
      var n := |a.rows| - 1;
      RightKeysAre(env, Answer(a.rows[..n], a.column));
      KeysSnoc(env, FirstCells(a.rows[..n]), a.rows[n][0].1);
      assert FindMatch(a.rows[n], a.column) == Some(a.rows[n][0].1);
    }
  }

  function AnswerKeys(env: Env, a: Answer): set<Bytes> {
    RightKeys(env, a.rows, a.column)
  }

  /** The outer key is looked up by its column name alone. */
  function OuterName(x: Expr): Bytes {
    if x.Column? then x.column else []
  }

  /** The row passes the semi-join of the subquery. */
  predicate SubHolds(env: Env, ans: Answers, s: Sub, row: Row) {
    Passes(env, AnswerKeys(env, ans(s.query)), OuterName(s.outer), s.negated, row)
  }

  /** The truth value of the predicate: the outer expression against the values of the subquery. */
  function SubTruth(env: Env, ans: Answers, s: Sub, row: Row): Value {
    match Eval(env, s.outer, row)
    case Ok(v) => Membership(env, v, FirstCells(ans(s.query).rows), s.negated)
    case Err(_) => Null
  }

  /** The outer column and the subquery's column are read where the query means them. */
  predicate SubReads(ans: Answers, s: Sub, row: Row) {
    s.outer.Column? && BareReads(s.outer.table, s.outer.column, row) && Readable(ans(s.query))
  }

  /** The key test decides as the standard does on the cells of the row and of the subquery. */
  predicate SubAgrees(env: Env, ans: Answers, s: Sub, row: Row) {
    match Eval(env, s.outer, row)
    case Ok(v) => KeysAgree(env, v, FirstCells(ans(s.query).rows), s.negated)
    case Err(_) => false
  }

  predicate SubMissed(env: Env, ans: Answers, s: Sub, row: Row) {
    match Eval(env, s.outer, row)
    case Ok(v) => Missed(env, v, FirstCells(ans(s.query).rows), s.negated)
    case Err(_) => true
  }

  predicate SubUntrue(env: Env, ans: Answers, s: Sub, row: Row) {
    match Eval(env, s.outer, row)
    case Ok(v) => Untrue(env, v, FirstCells(ans(s.query).rows), s.negated)
    case Err(_) => true
  }

  /** A row passes the semi-join when the predicate is true on it, exactly when the cells agree. */
  lemma SubExact(env: Env, ans: Answers, s: Sub, row: Row)
    requires SubReads(ans, s, row)
    ensures SubHolds(env, ans, s, row) <==> !SubMissed(env, ans, s, row)
    ensures SubTruth(env, ans, s, row) == Bool(true) <==> !SubUntrue(env, ans, s, row)
    ensures SubHolds(env, ans, s, row) == (SubTruth(env, ans, s, row) == Bool(true)) <==> SubAgrees(env, ans, s, row)
  {
    BareReadsSame(s.outer.table, s.outer.column, row);
    RightKeysAre(env, ans(s.query));
    InStandard(env, Eval(env, s.outer, row).value, FirstCells(ans(s.query).rows), s.negated);
  }

  /** Three-valued AND, as the evaluator computes it. */
  function And3(l: Value, r: Value): Value {
    if l == Bool(false) then l
    else if l == Null then (if r == Bool(false) then r else Null)
    else r
  }

  /** The truth value of the whole tree: subqueries by membership, everything else by evaluation. */
  function Truth(env: Env, ans: Answers, e: Expr, row: Row): Value {
    match e
    case InSubquery(x, q, negated) => SubTruth(env, ans, Sub(x, q, negated), row)
    case Binary(And, l, r) => And3(Truth(env, ans, l, row), Truth(env, ans, r, row))
    case _ => (match Eval(env, e, row) case Ok(v) => v case Err(_) => Null)
  }

  predicate Logical(r: Result<Value>) {
    r.Ok? && (r.value.Bool? || r.value.Null?)
  }

  /** The leaves that are not subqueries are boolean or NULL on the row. */
  predicate TreeLogical(env: Env, e: Expr, row: Row) {
    match e
    case InSubquery(_, _, _) => true
    case Binary(And, l, r) => TreeLogical(env, l, row) && TreeLogical(env, r, row)
    case _ => Logical(Eval(env, e, row))
  }

  predicate AllHold(env: Env, ans: Answers, subs: seq<Sub>, row: Row) {
    forall i :: 0 <= i < |subs| ==> SubHolds(env, ans, subs[i], row)
  }

  predicate RestHolds(env: Env, rest: Option<Expr>, row: Row) {
    rest.None? || Eval(env, rest.value, row) == Ok(Bool(true))
  }

  lemma BothHold(env: Env, l: Option<Expr>, r: Option<Expr>, row: Row)
    requires (l.Some? ==> Logical(Eval(env, l.value, row))) && (r.Some? ==> Logical(Eval(env, r.value, row)))
    ensures Both(l, r).Some? ==> Logical(Eval(env, Both(l, r).value, row))
    ensures RestHolds(env, Both(l, r), row) <==> RestHolds(env, l, row) && RestHolds(env, r, row)
  {
  }

  predicate AllSubsTrue(env: Env, ans: Answers, subs: seq<Sub>, row: Row) {
    forall i :: 0 <= i < |subs| ==> SubTruth(env, ans, subs[i], row) == Bool(true)
  }

  lemma SubsTrueAppend(env: Env, ans: Answers, a: seq<Sub>, b: seq<Sub>, row: Row)
    ensures AllSubsTrue(env, ans, a + b, row) <==> AllSubsTrue(env, ans, a, row) && AllSubsTrue(env, ans, b, row)
  {
    assert forall i :: 0 <= i < |a| ==> (a + b)[i] == a[i];
    assert forall i :: 0 <= i < |b| ==> (a + b)[|a| + i] == b[i];
  }

  /** The tree is true exactly when what stays is true and every peeled predicate is. */
  lemma {:induction false} PeelTruth(env: Env, ans: Answers, e: Expr, row: Row)
    requires TreeLogical(env, e, row)
    ensures Rest(e).Some? ==> Logical(Eval(env, Rest(e).value, row))
    ensures Truth(env, ans, e, row).Bool? || Truth(env, ans, e, row).Null?
    ensures Truth(env, ans, e, row) == Bool(true) <==> RestHolds(env, Rest(e), row) && AllSubsTrue(env, ans, Subs(e), row)
    decreases e
  {
    match e
    case InSubquery(x, q, negated) =>
      assert Subs(e)[0] == Sub(x, q, negated);
    case Binary(op, l, r) =>
      if op == And {
        PeelTruth(env, ans, l, row);
        PeelTruth(env, ans, r, row);
        BothHold(env, Rest(l), Rest(r), row);
        SubsTrueAppend(env, ans, Subs(l), Subs(r), row);
      }
    case _ =>
  }

  // ----- the plan: filter by the rest, then one semi-join after another -----

  function SemiJoinAll(env: Env, ans: Answers, subs: seq<Sub>, rows: seq<Row>): seq<Row> {
    if subs == [] then rows
    else
      var s := subs[|subs| - 1];
      SemiJoined(env, SemiJoinAll(env, ans, subs[..|subs| - 1], rows), AnswerKeys(env, ans(s.query)), OuterName(s.outer), s.negated)
  }

  /** The rows on which the whole tree is true, in order. */
  function TrueRows(env: Env, ans: Answers, e: Expr, rows: seq<Row>): seq<Row> {
    if rows == [] then []
    else
      var n := |rows| - 1;
      TrueRows(env, ans, e, rows[..n]) + if Truth(env, ans, e, rows[n]) == Bool(true) then [rows[n]] else []
  }

  lemma SemiJoinSnoc(env: Env, rows: seq<Row>, row: Row, keys: set<Bytes>, column: Bytes, negated: bool)
    ensures SemiJoined(env, rows + [row], keys, column, negated)
         == SemiJoined(env, rows, keys, column, negated) + if Passes(env, keys, column, negated, row) then [row] else []
  {
    assert (rows + [row])[..|rows|] == rows;
  }

  lemma AllHoldLast(env: Env, ans: Answers, subs: seq<Sub>, row: Row)
    requires subs != []
    ensures AllHold(env, ans, subs, row) <==> AllHold(env, ans, subs[..|subs| - 1], row) && SubHolds(env, ans, subs[|subs| - 1], row)
  {
    var n := |subs| - 1;
    assert forall i :: 0 <= i < n ==> subs[..n][i] == subs[i];
  }

  lemma {:induction false} SemiJoinAllSnoc(env: Env, ans: Answers, subs: seq<Sub>, rows: seq<Row>, row: Row)
    ensures SemiJoinAll(env, ans, subs, rows + [row])
         == SemiJoinAll(env, ans, subs, rows) + if AllHold(env, ans, subs, row) then [row] else []
  {
    if subs != [] {
      var s := subs[|subs| - 1];
      var before := SemiJoinAll(env, ans, subs[..|subs| - 1], rows);
      SemiJoinAllSnoc(env, ans, subs[..|subs| - 1], rows, row);
      AllHoldLast(env, ans, subs, row);
      SemiJoinSnoc(env, before, row, AnswerKeys(env, ans(s.query)), OuterName(s.outer), s.negated);
      assert before + [] == before;
    }
  }

  lemma {:induction false} SemiJoinAllNone(env: Env, ans: Answers, subs: seq<Sub>)
    ensures SemiJoinAll(env, ans, subs, []) == []
  {
    if subs != [] { SemiJoinAllNone(env, ans, subs[..|subs| - 1]); }
  }

  lemma FilterStep(env: Env, rest: Option<Expr>, rows: seq<Row>)
    requires rows != [] && FilterWhere(env, rows[..|rows| - 1], rest).Ok?
    requires rest.Some? ==> Logical(Eval(env, rest.value, rows[|rows| - 1]))
    ensures var n := |rows| - 1;
            var kept := FilterWhere(env, rows[..n], rest).value;
            FilterWhere(env, rows, rest) == Ok(if RestHolds(env, rest, rows[n]) then kept + [rows[n]] else kept)
  {
    assert rows == rows[..|rows| - 1] + [rows[|rows| - 1]];
  }

  /** Filtering by what stays and then one semi-join after another. */
  function Planned(env: Env, ans: Answers, e: Expr, rows: seq<Row>): Result<seq<Row>> {
    match FilterWhere(env, rows, Rest(e)) case Err(err) => Err(err) case Ok(kept) => Ok(SemiJoinAll(env, ans, Subs(e), kept))
  }

  /** The plan keeps the row. */
  predicate Keeps(env: Env, ans: Answers, e: Expr, row: Row) {
    RestHolds(env, Rest(e), row) && AllHold(env, ans, Subs(e), row)
  }

  function KeptRows(env: Env, ans: Answers, e: Expr, rows: seq<Row>): seq<Row> {
    if rows == [] then []
    else
      var n := |rows| - 1;
      KeptRows(env, ans, e, rows[..n]) + if Keeps(env, ans, e, rows[n]) then [rows[n]] else []
  }

  lemma {:induction false} PlanKeeps(env: Env, ans: Answers, e: Expr, rows: seq<Row>)
    requires forall i :: 0 <= i < |rows| ==> TreeLogical(env, e, rows[i])
    ensures Planned(env, ans, e, rows) == Ok(KeptRows(env, ans, e, rows))
  {
    if rows == [] {
      assert FilterWhere(env, [], Rest(e)) == Ok([]);
      SemiJoinAllNone(env, ans, Subs(e));
    } else {
      var n := |rows| - 1;
      PlanKeeps(env, ans, e, rows[..n]);
      PeelTruth(env, ans, e, rows[n]);
      FilterStep(env, Rest(e), rows);
      var kept := FilterWhere(env, rows[..n], Rest(e)).value;
      SemiJoinAllSnoc(env, ans, Subs(e), kept, rows[n]);
      var before := KeptRows(env, ans, e, rows[..n]);
      assert SemiJoinAll(env, ans, Subs(e), kept) == before;
      assert before + [] == before;
    }
  }

  lemma {:induction false} KeptRowsHas(env: Env, ans: Answers, e: Expr, rows: seq<Row>, row: Row)
    ensures row in KeptRows(env, ans, e, rows) <==> row in rows && Keeps(env, ans, e, row)
  {
    if rows != [] {
      var n := |rows| - 1;
      KeptRowsHas(env, ans, e, rows[..n], row);
      assert rows == rows[..n] + [rows[n]];
    }
  }

  lemma {:induction false} TrueRowsHas(env: Env, ans: Answers, e: Expr, rows: seq<Row>, row: Row)
    ensures row in TrueRows(env, ans, e, rows) <==> row in rows && Truth(env, ans, e, row) == Bool(true)
  {
    if rows != [] {
      var n := |rows| - 1;
      TrueRowsHas(env, ans, e, rows[..n], row);
      assert rows == rows[..n] + [rows[n]];
    }
  }

  /** The same rows in the same order, exactly when every row is kept or dropped by both. */
  lemma {:induction false} SameRows(env: Env, ans: Answers, e: Expr, rows: seq<Row>)
    ensures KeptRows(env, ans, e, rows) == TrueRows(env, ans, e, rows)
       <==> forall i :: 0 <= i < |rows| ==> Keeps(env, ans, e, rows[i]) == (Truth(env, ans, e, rows[i]) == Bool(true))
  {
    if i :| 0 <= i < |rows| && Keeps(env, ans, e, rows[i]) != (Truth(env, ans, e, rows[i]) == Bool(true)) {
      KeptRowsHas(env, ans, e, rows, rows[i]);
      TrueRowsHas(env, ans, e, rows, rows[i]);
    } else if rows != [] {
      SameRows(env, ans, e, rows[..|rows| - 1]);
    }
  }

  /**
   * On one row the plan is right when what stays is not true, or every peeled predicate's cells agree,
   * or one predicate's cells miss by key and one's, perhaps another's, are untrue.
   */
  predicate RowAgrees(env: Env, ans: Answers, e: Expr, row: Row) {
    var subs := Subs(e);
    || !RestHolds(env, Rest(e), row)
    || (forall i :: 0 <= i < |subs| ==> SubAgrees(env, ans, subs[i], row))
    || ((exists i :: 0 <= i < |subs| && SubMissed(env, ans, subs[i], row))
        && exists i :: 0 <= i < |subs| && SubUntrue(env, ans, subs[i], row))
  }

  lemma RowExact(env: Env, ans: Answers, e: Expr, row: Row)
    requires TreeLogical(env, e, row) && forall i :: 0 <= i < |Subs(e)| ==> SubReads(ans, Subs(e)[i], row)
    ensures Keeps(env, ans, e, row) == (Truth(env, ans, e, row) == Bool(true)) <==> RowAgrees(env, ans, e, row)
  {
    PeelTruth(env, ans, e, row);
    forall i | 0 <= i < |Subs(e)|
      ensures SubHolds(env, ans, Subs(e)[i], row) <==> !SubMissed(env, ans, Subs(e)[i], row)
      ensures SubTruth(env, ans, Subs(e)[i], row) == Bool(true) <==> !SubUntrue(env, ans, Subs(e)[i], row)
      ensures SubAgrees(env, ans, Subs(e)[i], row) <==> SubMissed(env, ans, Subs(e)[i], row) == SubUntrue(env, ans, Subs(e)[i], row)
    {
      SubExact(env, ans, Subs(e)[i], row);
    }
  }

  /** The tree can be evaluated on the rows, and its subqueries read the columns that are meant. */
  predicate Reads(env: Env, ans: Answers, e: Expr, rows: seq<Row>) {
    forall i :: 0 <= i < |rows| ==>
      TreeLogical(env, e, rows[i]) && forall j :: 0 <= j < |Subs(e)| ==> SubReads(ans, Subs(e)[j], rows[i])
  }

  /**
   * The plan fails on no row, and returns exactly the rows on which the whole WHERE is true, in their
   * order, if and only if it is right on each row.
   */
  lemma PeelExact(env: Env, ans: Answers, e: Expr, rows: seq<Row>)
    requires Reads(env, ans, e, rows)
    ensures Planned(env, ans, e, rows).Ok?
    ensures Planned(env, ans, e, rows) == Ok(TrueRows(env, ans, e, rows))
       <==> forall i :: 0 <= i < |rows| ==> RowAgrees(env, ans, e, rows[i])
  {
    PlanKeeps(env, ans, e, rows);
    SameRows(env, ans, e, rows);
    forall i | 0 <= i < |rows|
      ensures Keeps(env, ans, e, rows[i]) == (Truth(env, ans, e, rows[i]) == Bool(true)) <==> RowAgrees(env, ans, e, rows[i])
    {
      RowExact(env, ans, e, rows[i]);
    }
  }

  /** So it does whenever the cells of every peeled predicate agree on every row. */
  lemma PeelSound(env: Env, ans: Answers, e: Expr, rows: seq<Row>)
    requires Reads(env, ans, e, rows)
    requires forall i, j :: 0 <= i < |rows| && 0 <= j < |Subs(e)| ==> SubAgrees(env, ans, Subs(e)[j], rows[i])
    ensures Planned(env, ans, e, rows) == Ok(TrueRows(env, ans, e, rows))
  {
    PeelExact(env, ans, e, rows);
    assert forall i :: 0 <= i < |rows| ==> RowAgrees(env, ans, e, rows[i]);
  }

  /** `WHERE x [NOT] IN (subquery)`: if and only if the cells agree on every row. */
  lemma InWhereExact(env: Env, ans: Answers, s: Sub, rows: seq<Row>)
    requires forall i :: 0 <= i < |rows| ==> SubReads(ans, s, rows[i])
    ensures var e := InSubquery(s.outer, s.query, s.negated);
            Planned(env, ans, e, rows) == Ok(TrueRows(env, ans, e, rows))
            <==> forall i :: 0 <= i < |rows| ==> SubAgrees(env, ans, s, rows[i])
  {
    var e := InSubquery(s.outer, s.query, s.negated);
    assert Subs(e) == [s];
    PeelExact(env, ans, e, rows);
    forall i | 0 <= i < |rows| ensures RowAgrees(env, ans, e, rows[i]) <==> SubAgrees(env, ans, s, rows[i]) {
      OneAgrees(env, ans, s, rows[i]);
    }
  }

  lemma OneAgrees(env: Env, ans: Answers, s: Sub, row: Row)
    requires SubReads(ans, s, row)
    ensures RowAgrees(env, ans, InSubquery(s.outer, s.query, s.negated), row) <==> SubAgrees(env, ans, s, row)
  {
    var e := InSubquery(s.outer, s.query, s.negated);
    assert Subs(e) == [s] && Subs(e)[0] == s;
    SubExact(env, ans, s, row);
  }

  // ----- a number in the subquery -----

  /** The one row `column = v`. */
  lemma OneAnswer(env: Env, a: Answer, v: Value)
    requires a.rows == [[(a.column, v)]]
    ensures Readable(a) && FirstCells(a.rows) == [v] && AnswerKeys(env, a) == KeysOf(env, [v])
  {
    assert a.rows[..0] == [] && a.rows[0][0] == (a.column, v);
    assert FirstCells(a.rows[..0]) == [];
    RightKeysAre(env, a);
  }

  /** `c IN (SELECT COUNT(*) AS n ...)` with `c = '1'` and `n = 1` is true, and the semi-join drops the row. */
  lemma NumberNotFound(env: Env, ans: Answers, q: nat, c: Bytes, n: Bytes)
    requires env.number([49]) == Some(1.0) && ans(q) == Answer([[(n, Integer(1))]], n)
    ensures var s, row: Row := Sub(Column(None, c), q, false), [(c, Text([49]))];
            SubReads(ans, s, row) && SubTruth(env, ans, s, row) == Bool(true) && !SubHolds(env, ans, s, row)
  {
    var s, row: Row := Sub(Column(None, c), q, false), [(c, Text([49]))];
    OneAnswer(env, ans(q), Integer(1));
    assert row[0].0 == c && Names(row)[0] == c;
    TextEqual(env, [49], [Integer(1)]);
    TextKeyed(env, [49], [Integer(1)]);
    assert [Integer(1)][0] == Integer(1);
    assert |EightBytes(1)| == 8;
    BareReadsSame(None, c, row);
  }

  // ----- the lookup by bare name on joined rows -----

  const ID: Bytes := [105, 100]
  const O: Bytes := [111]
  const U: Bytes := [117]

  /** A joined row with `u.id = 1` before `o.id = 2`. */
  const JOINED: Row := [(Qualify(U, ID), Text([49])), (Qualify(O, ID), Text([50]))]

  lemma JoinedFields()
    ensures Bare(Qualify(U, ID)) == Bare(Qualify(O, ID)) == ID && Qualify(U, ID) != Qualify(O, ID)
    ensures Lookup(JOINED, Qualify(O, ID)) == Some(Text([50])) && FindMatch(JOINED, ID) == Some(Text([49]))
  {
    BareAfterDot(U, ID);
    BareAfterDot(O, ID);
    assert Qualify(U, ID)[0] != Qualify(O, ID)[0];
    NameMatchesBare(Qualify(U, ID), ID);
    assert JOINED[1..][0] == (Qualify(O, ID), Text([50]));
  }

  /** `o.id IN (2)` is true on a row with `u.id = 1, o.id = 2`, and the semi-join drops the row: it reads `u.id`. */
  lemma QualifierDropped(env: Env, ans: Answers, q: nat)
    requires ans(q) == Answer([[(ID, Text([50]))]], ID)
    ensures var s := Sub(Column(Some(O), ID), q, false);
            SubTruth(env, ans, s, JOINED) == Bool(true) && !SubHolds(env, ans, s, JOINED) && !BareReads(Some(O), ID, JOINED)
  {
    var s, rows := Sub(Column(Some(O), ID), q, false), ans(q).rows;
    JoinedFields();
    OneAnswer(env, ans(q), Text([50]));
    assert SubTruth(env, ans, s, JOINED) == Bool(true) by {
      assert Eval(env, s.outer, JOINED) == Ok(Text([50]));
      TextEqual(env, [50], FirstCells(rows));
    }
    assert !SubHolds(env, ans, s, JOINED) by { TextKeyed(env, [49], FirstCells(rows)); }
    FirstNamedReads(JOINED, ID);
    LookupFound(JOINED, Qualify(O, ID));
  }

  /** A renamed column is looked up under its old name: `x IN (SELECT c AS d FROM ...)` finds no key at all. */
  lemma {:induction false} AliasLosesKeys(env: Env, rows: seq<Row>, c: Bytes, d: Bytes)
    requires Bare(c) != Bare(d) && forall i :: 0 <= i < |rows| ==> Names(rows[i]) == [d]
    ensures RightKeys(env, rows, c) == {}
  {
    if rows != [] {
      var n := |rows| - 1;
      AliasLosesKeys(env, rows[..n], c, d);
      assert |rows[n]| == |Names(rows[n])| == 1 && rows[n][0].0 == Names(rows[n])[0] == d;
      NameMatchesBare(d, c);
      assert rows[n][1..] == [];
      assert FindMatch(rows[n], c) == None;
    }
  }

  // ----- splitting a subquery's WHERE into correlated and inner conjuncts -----

  function Flatten(e: Expr): seq<Expr> {
    match e
    case Binary(And, l, r) => Flatten(l) + Flatten(r)
    case _ => [e]
  }

  function AndAll(es: seq<Expr>): (r: Option<Expr>)
    ensures r.None? <==> es == []
  {
    if es == [] then None
    else if |es| == 1 then Some(es[0])
    else Some(Binary(And, AndAll(es[..|es| - 1]).value, es[|es| - 1]))
  }

  /** The conjuncts that are correlated, or those that are not. */
  function Picked(es: seq<Expr>, correlated: Expr -> bool, want: bool): seq<Expr> {
    if es == [] then []
    else Picked(es[..|es| - 1], correlated, want) + if correlated(es[|es| - 1]) == want then [es[|es| - 1]] else []
  }

  method SplitWhere(where: Option<Expr>, correlated: Expr -> bool) returns (corr: seq<Expr>, rest: Option<Expr>)
    ensures where.None? ==> corr == [] && rest == None
    ensures where.Some? ==> corr == Picked(Flatten(where.value), correlated, true)
    ensures where.Some? ==> rest == AndAll(Picked(Flatten(where.value), correlated, false))
  {
    if where.None? { return [], None; }
    var parts := Flatten(where.value);
    var others: seq<Expr> := [];
    corr := [];
    for i := 0 to |parts|
      invariant corr == Picked(parts[..i], correlated, true) && others == Picked(parts[..i], correlated, false)
    {
      TakeStep(parts, i);
      if correlated(parts[i]) { corr := corr + [parts[i]]; } else { others := others + [parts[i]]; }
    }
    TakeAll(parts);
    rest := AndAll(others);
  }

  predicate AllTrue(env: Env, es: seq<Expr>, row: Row) {
    es == [] || (AllTrue(env, es[..|es| - 1], row) && Eval(env, es[|es| - 1], row) == Ok(Bool(true)))
  }

  predicate AllLogical(env: Env, es: seq<Expr>, row: Row) {
    es == [] || (AllLogical(env, es[..|es| - 1], row) && Logical(Eval(env, es[|es| - 1], row)))
  }

  lemma {:induction false} AllAppend(env: Env, a: seq<Expr>, b: seq<Expr>, row: Row)
    ensures AllTrue(env, a + b, row) <==> AllTrue(env, a, row) && AllTrue(env, b, row)
    ensures AllLogical(env, a + b, row) <==> AllLogical(env, a, row) && AllLogical(env, b, row)
  {
    if b == [] {
      assert a + b == a;
    } else {
      assert (a + b)[..|a + b| - 1] == a + b[..|b| - 1];
      AllAppend(env, a, b[..|b| - 1], row);
    }
  }

  lemma AndTruth(env: Env, l: Expr, r: Expr, row: Row)
    requires Logical(Eval(env, l, row)) && Logical(Eval(env, r, row))
    ensures Logical(Eval(env, Binary(And, l, r), row))
    ensures Eval(env, Binary(And, l, r), row) == Ok(Bool(true)) <==> Eval(env, l, row) == Ok(Bool(true)) && Eval(env, r, row) == Ok(Bool(true))
  {
  }

  lemma {:induction false} FlattenTruth(env: Env, e: Expr, row: Row)
    requires AllLogical(env, Flatten(e), row)
    ensures Logical(Eval(env, e, row))
    ensures Eval(env, e, row) == Ok(Bool(true)) <==> AllTrue(env, Flatten(e), row)
    decreases e
  {
    if e.Binary? && e.op == And {
      AllAppend(env, Flatten(e.left), Flatten(e.right), row);
      FlattenTruth(env, e.left, row);
      FlattenTruth(env, e.right, row);
      AndTruth(env, e.left, e.right, row);
    } else {
      assert Flatten(e)[..0] == [];
    }
  }

  lemma {:induction false} AndAllTruth(env: Env, es: seq<Expr>, row: Row)
    requires AllLogical(env, es, row)
    ensures es != [] ==> Logical(Eval(env, AndAll(es).value, row))
    ensures RestHolds(env, AndAll(es), row) <==> AllTrue(env, es, row)
  {
    if |es| == 1 {
      assert es[..0] == [];
    } else if es != [] {
      AndAllTruth(env, es[..|es| - 1], row);
      AndTruth(env, AndAll(es[..|es| - 1]).value, es[|es| - 1], row);
    }
  }

  lemma {:induction false} PickedTruth(env: Env, es: seq<Expr>, correlated: Expr -> bool, row: Row)
    requires AllLogical(env, es, row)
    ensures var yes, no := Picked(es, correlated, true), Picked(es, correlated, false);
            && AllLogical(env, yes, row) && AllLogical(env, no, row)
            && (AllTrue(env, es, row) <==> AllTrue(env, yes, row) && AllTrue(env, no, row))
  {
    if es != [] {
      var n := |es| - 1;
      PickedTruth(env, es[..n], correlated, row);
      AllAppend(env, Picked(es[..n], correlated, true), if correlated(es[n]) then [es[n]] else [], row);
      AllAppend(env, Picked(es[..n], correlated, false), if correlated(es[n]) then [] else [es[n]], row);
      assert [es[n]][..0] == [];
    }
  }

  /** Whatever counts as correlated, the two halves together say what the WHERE said. */
  lemma SplitSound(env: Env, e: Expr, correlated: Expr -> bool, row: Row)
    requires AllLogical(env, Flatten(e), row)
    ensures Eval(env, e, row) == Ok(Bool(true)) <==>
              && RestHolds(env, AndAll(Picked(Flatten(e), correlated, true)), row)
              && RestHolds(env, AndAll(Picked(Flatten(e), correlated, false)), row)
  {
    FlattenTruth(env, e, row);
    PickedTruth(env, Flatten(e), correlated, row);
    AndAllTruth(env, Picked(Flatten(e), correlated, true), row);
    AndAllTruth(env, Picked(Flatten(e), correlated, false), row);
  }
}
