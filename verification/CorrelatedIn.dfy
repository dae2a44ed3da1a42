/** `x [NOT] IN (SELECT c FROM i WHERE i.k = o.m)`: the hash semi-join that tests the correlation on candidates. */
module CorrelatedIn {
  import opened ByteStrings
  import opened Values
  import opened Columns
  import opened Expressions
  import opened Joins
  import opened KeyLookup
  import opened KeyMembership
  import opened Subqueries

  // ----- the join -----

  /** Candidates in order until the correlation holds on one; the first error before that ends the query. */
  function AnyLinked(env: Env, corr: Expr, l: Row, candidates: seq<Row>): Result<bool> {
    if candidates == [] then Ok(false)
    else match EvalPredicate(env, corr, l + candidates[0])
      case Err(e) => Err(e)
      case Ok(true) => Ok(true)
      case Ok(false) => AnyLinked(env, corr, l, candidates[1..])
  }

  /** The two key columns, the correlation and the NOT. */
  datatype Correlated = Correlated(leftKey: Bytes, rightKey: Bytes, corr: Expr, negated: bool)

  /** Whether the join keeps the row; a row without the key is dropped. */
  function LinkedTest(env: Env, q: Correlated, right: seq<Row>, l: Row): Result<bool> {
    match JoinKey(env, l, q.leftKey)
    case None => Ok(false)
    case Some(k) => match AnyLinked(env, q.corr, l, WithKey(KeyFor(env, q.rightKey), right, k))
      case Err(e) => Err(e)
      case Ok(matched) => Ok(matched != q.negated)
  }

  function LinkedRows(env: Env, q: Correlated, left: seq<Row>, right: seq<Row>): Result<seq<Row>> {
    if left == [] then Ok([])
    else
      var n := |left| - 1;
      match LinkedRows(env, q, left[..n], right)
      case Err(e) => Err(e)
      case Ok(kept) => match LinkedTest(env, q, right, left[n])
        case Err(e) => Err(e)
        case Ok(keep) => Ok(if keep then kept + [left[n]] else kept)
  }

  lemma {:induction false} LinkedStops(env: Env, q: Correlated, left: seq<Row>, right: seq<Row>, i: nat)
    requires i <= |left| && LinkedRows(env, q, left[..i], right).Err?
    ensures LinkedRows(env, q, left, right) == LinkedRows(env, q, left[..i], right)
    decreases |left| - i
  {
    if i == |left| {
      TakeAll(left);
    } else {
      TakeStep(left, i);
      LinkedStops(env, q, left, right, i + 1);
    }
  }

  method TestCandidates(env: Env, corr: Expr, l: Row, candidates: seq<Row>) returns (r: Result<bool>)
    ensures r == AnyLinked(env, corr, l, candidates)
  {
    for j := 0 to |candidates|
      invariant AnyLinked(env, corr, l, candidates) == AnyLinked(env, corr, l, candidates[j..])
    {
      DropStep(candidates, j);
      var keep := EvalPredicate(env, corr, l + candidates[j]);
      if keep.Err? { return Err(keep.error); }
      if keep.value { return Ok(true); }
    }
    r := Ok(false);
  }

  method BuildBuckets(kr: KeyFn<Row>, right: seq<Row>) returns (buckets: map<Bytes, seq<Row>>)
    ensures buckets == Bucketed(kr, right)
  {
    buckets := map[];
    for i := 0 to |right|
      invariant buckets == Bucketed(kr, right[..i])
    {
      TakeStep(right, i);
      var key := kr(right[i]);
      if key.Some? {
        buckets := buckets[key.value := (if key.value in buckets then buckets[key.value] else []) + [right[i]]];
      }
    }
    TakeAll(right);
  }

  method SemiJoinCorrelated(env: Env, q: Correlated, left: seq<Row>, right: seq<Row>) returns (r: Result<seq<Row>>)
    ensures r == LinkedRows(env, q, left, right)
  {
    var kr := KeyFor(env, q.rightKey);
    var buckets := BuildBuckets(kr, right);
    var out: seq<Row> := [];
    for i := 0 to |left|
      invariant LinkedRows(env, q, left[..i], right) == Ok(out)
    {
      TakeStep(left, i);
      var key := JoinKey(env, left[i], q.leftKey);
      if key.None? { continue; }
      BucketHolds(kr, right, key.value);
      var matched := Ok(false);
      if key.value in buckets { matched := TestCandidates(env, q.corr, left[i], buckets[key.value]); }
      if matched.Err? {
        LinkedStops(env, q, left, right, i + 1);
        return Err(matched.error);
      }
      if matched.value != q.negated { out := out + [left[i]]; }
    }
    TakeAll(left);
    r := Ok(out);
  }

  // ----- against the rows that are linked -----

  predicate Defined(env: Env, corr: Expr, l: Row, right: seq<Row>) {
    forall j :: 0 <= j < |right| ==> EvalPredicate(env, corr, l + right[j]).Ok?
  }

  /** The right rows on which the correlation is true. */
  function LinkedTo(env: Env, corr: Expr, l: Row, right: seq<Row>): seq<Row> {
    if right == [] then []
    else
      var n := |right| - 1;
      LinkedTo(env, corr, l, right[..n]) + if EvalPredicate(env, corr, l + right[n]) == Ok(true) then [right[n]] else []
  }

  lemma {:induction false} AnyLinkedExact(env: Env, corr: Expr, l: Row, candidates: seq<Row>)
    requires Defined(env, corr, l, candidates)
    ensures AnyLinked(env, corr, l, candidates)
         == Ok(exists j :: 0 <= j < |candidates| && EvalPredicate(env, corr, l + candidates[j]) == Ok(true))
  {
    if candidates != [] {
      assert forall j :: 1 <= j < |candidates| ==> candidates[j] == candidates[1..][j - 1];
      assert forall j :: 0 <= j < |candidates[1..]| ==> candidates[1..][j] == candidates[j + 1];
      AnyLinkedExact(env, corr, l, candidates[1..]);
    }
  }

  lemma {:induction false} WithKeyHas(kr: KeyFn<Row>, right: seq<Row>, k: Bytes, r: Row)
    ensures r in WithKey(kr, right, k) <==> r in right && kr(r) == Some(k)
  {
    if right != [] {
      var n := |right| - 1;
      WithKeyHas(kr, right[..n], k, r);
      assert right == right[..n] + [right[n]];
    }
  }

  lemma {:induction false} LinkedKeys(env: Env, corr: Expr, l: Row, right: seq<Row>, column: Bytes, k: Bytes)
    ensures k in RightKeys(env, LinkedTo(env, corr, l, right), column)
       <==> exists r :: r in right && JoinKey(env, r, column) == Some(k) && EvalPredicate(env, corr, l + r) == Ok(true)
  {
    if right != [] {
      var n := |right| - 1;
      LinkedKeys(env, corr, l, right[..n], column, k);
      assert right == right[..n] + [right[n]];
      var before := LinkedTo(env, corr, l, right[..n]);
      if EvalPredicate(env, corr, l + right[n]) == Ok(true) {
        assert (before + [right[n]])[..|before|] == before;
      } else {
        assert before + [] == before;
      }
    }
  }

  lemma FoundLinked(env: Env, corr: Expr, l: Row, right: seq<Row>, column: Bytes, k: Bytes)
    requires Defined(env, corr, l, right)
    ensures AnyLinked(env, corr, l, WithKey(KeyFor(env, column), right, k))
         == Ok(exists r :: r in right && JoinKey(env, r, column) == Some(k) && EvalPredicate(env, corr, l + r) == Ok(true))
  {
    var kr := KeyFor(env, column);
    var found := WithKey(kr, right, k);
    forall r ensures r in found <==> r in right && JoinKey(env, r, column) == Some(k) { WithKeyHas(kr, right, k, r); }
    forall j | 0 <= j < |found| ensures EvalPredicate(env, corr, l + found[j]).Ok? {
      assert found[j] in right;
    }
    AnyLinkedExact(env, corr, l, found);
    if r :| r in right && JoinKey(env, r, column) == Some(k) && EvalPredicate(env, corr, l + r) == Ok(true) {
      assert r in found;
      var j :| 0 <= j < |found| && found[j] == r;
    }
  }

  /** The join tests the key against the keys of the linked rows. */
  lemma LinkedTestExact(env: Env, q: Correlated, right: seq<Row>, l: Row)
    requires Defined(env, q.corr, l, right)
    ensures LinkedTest(env, q, right, l) == Ok(Passes(env, RightKeys(env, LinkedTo(env, q.corr, l, right), q.rightKey), q.leftKey, q.negated, l))
  {
    var key := JoinKey(env, l, q.leftKey);
    if key.Some? {
      FoundLinked(env, q.corr, l, right, q.rightKey, key.value);
      LinkedKeys(env, q.corr, l, right, q.rightKey, key.value);
    }
  }

  // ----- what the correlation reads -----

  /** `inner.k = outer.m`. */
  datatype Link = Link(inner: Bytes, k: Bytes, outer: Bytes, m: Bytes)

  function LinkExpr(link: Link): Expr {
    Binary(Eq, Column(Some(link.inner), link.k), Column(Some(link.outer), link.m))
  }

  /** The right rows of the join hold only the subquery's column; the inner key is read from them. */
  predicate InnerReads(link: Link, c: Bytes, l: Row) {
    c == link.k && link.k !in Names(l) && Qualify(link.inner, link.k) !in Names(l)
  }

  /** The outer key is read from the outer row. */
  predicate OuterReads(link: Link, c: Bytes, l: Row) {
    Qualify(link.outer, link.m) in Names(l) || (link.m in Names(l) && c != Qualify(link.outer, link.m))
  }

  function Field(row: Row, name: Bytes): Result<Value> {
    match Lookup(row, name) case Some(v) => Ok(v) case None => Err(UnknownColumn(name))
  }

  /** What a qualified reference reads in an outer row joined with the subquery's column. */
  function ReadIn(table: Bytes, column: Bytes, l: Row, c: Bytes, v: Value): Result<Value> {
    if Qualify(table, column) in Names(l) then Field(l, Qualify(table, column))
    else if c == Qualify(table, column) then Ok(v)
    else if column in Names(l) then Field(l, column)
    else if c == column then Ok(v)
    else Err(UnknownColumn(Qualify(table, column)))
  }

  lemma ReadJoined(table: Bytes, column: Bytes, l: Row, c: Bytes, v: Value)
    ensures EvalColumn(Some(table), column, l + [(c, v)]) == ReadIn(table, column, l, c, v)
  {
    LookupAppend(l, (c, v), Qualify(table, column));
    LookupAppend(l, (c, v), column);
    LookupFound(l, Qualify(table, column));
    LookupFound(l, column);
  }

  /**
   * Whatever the cells are, the inner side of the correlation reads the inner row's `k`, exactly when
   * `k` is the subquery's column and the outer row has none of that name. Here `v` is the inner row's
   * cell of the subquery's column and `w` its cell of `k`.
   */
  lemma InnerReadsExact(link: Link, c: Bytes, l: Row)
    ensures (forall v, w :: (c == link.k ==> v == w) ==> EvalColumn(Some(link.inner), link.k, l + [(c, v)]) == Ok(w))
       <==> InnerReads(link, c, l)
  {
    var q := Qualify(link.inner, link.k);
    assert |q| > |link.k|;
    forall v ensures EvalColumn(Some(link.inner), link.k, l + [(c, v)]) == ReadIn(link.inner, link.k, l, c, v) {
      ReadJoined(link.inner, link.k, l, c, v);
    }
    if !InnerReads(link, c, l) {
      var zero, one := EvalColumn(Some(link.inner), link.k, l + [(c, Integer(0))]), EvalColumn(Some(link.inner), link.k, l + [(c, Integer(1))]);
      if c == link.k {
        assert zero != Ok(Integer(0)) || one != Ok(Integer(1));
      } else {
        assert zero != Ok(Integer(0)) || zero != Ok(Integer(1));
      }
    }
  }

  // ----- the meaning of the correlated predicate -----

  /** The inner row's cell of a column of its own. */
  function InnerCell(link: Link, r: Row, column: Bytes): Result<Value> {
    EvalColumn(Some(link.inner), column, r)
  }

  predicate Linked(env: Env, link: Link, l: Row, r: Row) {
    match (InnerCell(link, r, link.k), EvalColumn(Some(link.outer), link.m, l))
    case (Ok(a), Ok(b)) => SqlEq(env, a, b) == Some(true)
    case _ => false
  }

  predicate Holding(link: Link, c: Bytes, inner: seq<Row>) {
    forall j :: 0 <= j < |inner| ==> InnerCell(link, inner[j], c).Ok?
  }

  /** The values of the subquery for one outer row: the cells of the inner rows linked to it. */
  function LinkedValues(env: Env, link: Link, c: Bytes, l: Row, inner: seq<Row>): seq<Value>
    requires Holding(link, c, inner)
  {
    if inner == [] then []
    else
      var n := |inner| - 1;
      LinkedValues(env, link, c, l, inner[..n]) + if Linked(env, link, l, inner[n]) then [InnerCell(link, inner[n], c).value] else []
  }

  /** What the inner plan returns: one column of each inner row. */
  function Projected(link: Link, c: Bytes, inner: seq<Row>): (right: seq<Row>)
    requires Holding(link, c, inner)
    ensures |right| == |inner| && forall j :: 0 <= j < |inner| ==> right[j] == [(c, InnerCell(link, inner[j], c).value)]
  {
    if inner == [] then [] else Projected(link, c, inner[..|inner| - 1]) + [[(c, InnerCell(link, inner[|inner| - 1], c).value)]]
  }

  lemma LinkEval(env: Env, link: Link, c: Bytes, l: Row, v: Value)
    requires InnerReads(link, c, l) && OuterReads(link, c, l)
    ensures EvalColumn(Some(link.outer), link.m, l).Ok?
    ensures EvalPredicate(env, LinkExpr(link), l + [(c, v)])
         == Ok(SqlEq(env, v, EvalColumn(Some(link.outer), link.m, l).value) == Some(true))
  {
    assert |Qualify(link.inner, link.k)| > |link.k|;
    ReadJoined(link.inner, link.k, l, c, v);
    ReadJoined(link.outer, link.m, l, c, v);
    LookupFound(l, Qualify(link.outer, link.m));
    LookupFound(l, link.m);
    var x, y := Column(Some(link.inner), link.k), Column(Some(link.outer), link.m);
    var b := EvalColumn(Some(link.outer), link.m, l).value;
    assert Eval(env, x, l + [(c, v)]) == Ok(v) && Eval(env, y, l + [(c, v)]) == Ok(b);
    assert Eval(env, LinkExpr(link), l + [(c, v)]) == Ok(EqValue(SqlEq(env, v, b), true));
  }

  lemma LinkedSnoc(env: Env, corr: Expr, l: Row, right: seq<Row>, r: Row)
    ensures LinkedTo(env, corr, l, right + [r])
         == LinkedTo(env, corr, l, right) + if EvalPredicate(env, corr, l + r) == Ok(true) then [r] else []
  {
    assert (right + [r])[..|right|] == right;
  }

  lemma FirstCellsSnoc(rows: seq<Row>, c: Bytes, v: Value)
    ensures FirstCells(rows + [[(c, v)]]) == FirstCells(rows) + [v]
    ensures Readable(Answer(rows, c)) ==> Readable(Answer(rows + [[(c, v)]], c))
  {
    var more := rows + [[(c, v)]];
    assert more[..|rows|] == rows && more[|rows|] == [(c, v)];
  }

  /** The linked rows of the join are the projections of the linked inner rows. */
  predicate SameLinks(env: Env, link: Link, c: Bytes, l: Row, inner: seq<Row>, right: seq<Row>)
    requires Holding(link, c, inner)
  {
    var linked := LinkedTo(env, LinkExpr(link), l, right);
    && Defined(env, LinkExpr(link), l, right) && Readable(Answer(linked, c))
    && FirstCells(linked) == LinkedValues(env, link, c, l, inner)
  }

  lemma SameLinksStep(env: Env, link: Link, c: Bytes, l: Row, inner: seq<Row>, right: seq<Row>, v: Value)
    requires inner != [] && Holding(link, c, inner) && InnerReads(link, c, l) && OuterReads(link, c, l)
    requires SameLinks(env, link, c, l, inner[..|inner| - 1], right) && InnerCell(link, inner[|inner| - 1], c) == Ok(v)
    ensures SameLinks(env, link, c, l, inner, right + [[(c, v)]])
  {
    var corr, r: Row := LinkExpr(link), [(c, v)];
    LinkEval(env, link, c, l, v);
    LinkedSnoc(env, corr, l, right, r);
    var before := LinkedTo(env, corr, l, right);
    FirstCellsSnoc(before, c, v);
    assert before + [] == before;
  }

  lemma {:induction false} LinkedCells(env: Env, link: Link, c: Bytes, l: Row, inner: seq<Row>)
    requires Holding(link, c, inner) && InnerReads(link, c, l) && OuterReads(link, c, l)
    ensures SameLinks(env, link, c, l, inner, Projected(link, c, inner))
  {
    if inner != [] {
      var n := |inner| - 1;
      LinkedCells(env, link, c, l, inner[..n]);
      SameLinksStep(env, link, c, l, inner, Projected(link, c, inner[..n]), InnerCell(link, inner[n], c).value);
    }
  }

  // ----- the join against the meaning -----

  /** The query's parts: the outer column, the subquery's column, the link and the NOT. */
  datatype Query = Query(table: Option<Bytes>, column: Bytes, c: Bytes, link: Link, negated: bool)

  function JoinOf(q: Query): Correlated {
    Correlated(q.column, q.c, LinkExpr(q.link), q.negated)
  }

  /** Every column of the query is read where it is meant. */
  predicate QueryReads(q: Query, l: Row) {
    BareReads(q.table, q.column, l) && InnerReads(q.link, q.c, l) && OuterReads(q.link, q.c, l)
  }

  function QueryTruth(env: Env, q: Query, l: Row, inner: seq<Row>): Value
    requires Holding(q.link, q.c, inner)
  {
    match EvalColumn(q.table, q.column, l)
    case Ok(x) => Membership(env, x, LinkedValues(env, q.link, q.c, l, inner), q.negated)
    case Err(_) => Null
  }

  predicate QueryAgrees(env: Env, q: Query, l: Row, inner: seq<Row>)
    requires Holding(q.link, q.c, inner)
  {
    match EvalColumn(q.table, q.column, l)
    case Ok(x) => KeysAgree(env, x, LinkedValues(env, q.link, q.c, l, inner), q.negated)
    case Err(_) => false
  }

  lemma LinkedRowExact(env: Env, q: Query, l: Row, inner: seq<Row>)
    requires Holding(q.link, q.c, inner) && QueryReads(q, l)
    ensures var test := LinkedTest(env, JoinOf(q), Projected(q.link, q.c, inner), l);
            test.Ok? && (test.value == (QueryTruth(env, q, l, inner) == Bool(true)) <==> QueryAgrees(env, q, l, inner))
  {
    var right := Projected(q.link, q.c, inner);
    var linked := LinkedTo(env, LinkExpr(q.link), l, right);
    LinkedCells(env, q.link, q.c, l, inner);
    LinkedTestExact(env, JoinOf(q), right, l);
    BareReadsSame(q.table, q.column, l);
    RightKeysAre(env, Answer(linked, q.c));
    InStandard(env, EvalColumn(q.table, q.column, l).value, LinkedValues(env, q.link, q.c, l, inner), q.negated);
  }

  /** The outer rows on which the predicate is true. */
  function MeantRows(env: Env, q: Query, left: seq<Row>, inner: seq<Row>): seq<Row>
    requires Holding(q.link, q.c, inner)
  {
    if left == [] then []
    else
      var n := |left| - 1;
      MeantRows(env, q, left[..n], inner) + if QueryTruth(env, q, left[n], inner) == Bool(true) then [left[n]] else []
  }

  lemma {:induction false} MeantHas(env: Env, q: Query, left: seq<Row>, inner: seq<Row>, l: Row)
    requires Holding(q.link, q.c, inner)
    ensures l in MeantRows(env, q, left, inner) <==> l in left && QueryTruth(env, q, l, inner) == Bool(true)
  {
    if left != [] {
      var n := |left| - 1;
      MeantHas(env, q, left[..n], inner, l);
      assert left == left[..n] + [left[n]];
    }
  }

  lemma {:induction false} LinkedHas(env: Env, q: Correlated, left: seq<Row>, right: seq<Row>, l: Row)
    requires LinkedRows(env, q, left, right).Ok?
    ensures l in LinkedRows(env, q, left, right).value <==> l in left && LinkedTest(env, q, right, l) == Ok(true)
  {
    if left != [] {
      var n := |left| - 1;
      LinkedHas(env, q, left[..n], right, l);
      assert left == left[..n] + [left[n]];
    }
  }

  lemma {:induction false} LinkedSame(env: Env, q: Query, left: seq<Row>, inner: seq<Row>)
    requires Holding(q.link, q.c, inner) && forall i :: 0 <= i < |left| ==> QueryReads(q, left[i])
    ensures var r := LinkedRows(env, JoinOf(q), left, Projected(q.link, q.c, inner));
            && r.Ok?
            && ((forall i :: 0 <= i < |left| ==> QueryAgrees(env, q, left[i], inner)) ==> r.value == MeantRows(env, q, left, inner))
  {
    if left != [] {
      var n := |left| - 1;
      LinkedSame(env, q, left[..n], inner);
      LinkedRowExact(env, q, left[n], inner);
    }
  }

  /**
   * With every column read where it is meant, the join fails on no row, and returns exactly the outer
   * rows on which the correlated predicate is true, in order, if and only if the cells agree on each.
   */
  lemma CorrelatedExact(env: Env, q: Query, left: seq<Row>, inner: seq<Row>)
    requires Holding(q.link, q.c, inner) && forall i :: 0 <= i < |left| ==> QueryReads(q, left[i])
    ensures LinkedRows(env, JoinOf(q), left, Projected(q.link, q.c, inner)) == Ok(MeantRows(env, q, left, inner))
       <==> forall i :: 0 <= i < |left| ==> QueryAgrees(env, q, left[i], inner)
  {
    LinkedSame(env, q, left, inner);
    if i :| 0 <= i < |left| && !QueryAgrees(env, q, left[i], inner) {
      LinkedRowExact(env, q, left[i], inner);
      LinkedHas(env, JoinOf(q), left, Projected(q.link, q.c, inner), left[i]);
      MeantHas(env, q, left, inner, left[i]);
    }
  }

  // ----- a correlation that reads the outer row twice -----

  /** The outer row `x = 5, k = 1` and the inner row `c = 5, k = 2`. */
  const OUTER: Row := [([120], Text([53])), ([107], Text([49]))]
  const INNER: Row := [([99], Text([53])), ([107], Text([50]))]

  lemma MisreadCells()
    ensures FindMatch(OUTER, [120]) == Some(Text([53])) && EvalColumn(None, [120], OUTER) == Ok(Text([53]))
    ensures EvalColumn(Some([111]), [107], OUTER) == Ok(Text([49])) && EvalColumn(Some([105]), [107], INNER) == Ok(Text([50]))
    ensures EvalColumn(Some([105]), [99], INNER) == Ok(Text([53]))
    ensures EvalColumn(Some([105]), [107], OUTER + [([99], Text([53]))]) == Ok(Text([49]))
    ensures EvalColumn(Some([111]), [107], OUTER + [([99], Text([53]))]) == Ok(Text([49]))
  {
    assert |Qualify([111], [107])| == 3 && |Qualify([105], [107])| == 3 && |Qualify([105], [99])| == 3;
    assert OUTER[1..] == [([107], Text([49]))] && INNER[1..] == [([107], Text([50]))];
    assert OUTER[1..][1..] == [] && INNER[1..][1..] == [];
    assert [107][0] != [120][0] && [107][0] != [99][0];
    LookupFound(OUTER, [107]);
    assert Names(OUTER)[1] == [107];
    ReadJoined([105], [107], OUTER, [99], Text([53]));
    ReadJoined([111], [107], OUTER, [99], Text([53]));
  }

  /** `x IN (SELECT c FROM i WHERE i.k = o.k)`: the rows are not linked, and the join, which finds `k` in the outer row only, keeps the row. */
  lemma CorrelationMisread(env: Env)
    ensures var q := Query(None, [120], [99], Link([105], [107], [111], [107]), false);
            && Holding(q.link, q.c, [INNER]) && QueryTruth(env, q, OUTER, [INNER]) == Bool(false)
            && LinkedRows(env, JoinOf(q), [OUTER], Projected(q.link, q.c, [INNER])) == Ok([OUTER])
  {
    var q := Query(None, [120], [99], Link([105], [107], [111], [107]), false);
    var right: seq<Row> := [[([99], Text([53]))]];
    MisreadCells();
    assert [INNER][..0] == [] && [OUTER][..0] == [];
    assert LinkedValues(env, q.link, q.c, OUTER, [INNER][..0]) == [];
    assert LinkedValues(env, q.link, q.c, OUTER, [INNER]) == [];
    SameElements(Projected(q.link, q.c, [INNER]), right);
    MisreadMatches(env, q, right);
  }

  lemma MisreadMatches(env: Env, q: Query, right: seq<Row>)
    requires q == Query(None, [120], [99], Link([105], [107], [111], [107]), false) && right == [[([99], Text([53]))]]
    ensures LinkedRows(env, JoinOf(q), [OUTER], right) == Ok([OUTER])
  {
    var r: Row, corr := [([99], Text([53]))], LinkExpr(q.link);
    MisreadCells();
    assert Eval(env, corr.left, OUTER + r) == Ok(Text([49])) && Eval(env, corr.right, OUTER + r) == Ok(Text([49]));
    assert Eval(env, corr, OUTER + r) == Ok(Bool(true));
    OneCandidate(env, JoinOf(q), OUTER, r, [53]);
  }

  lemma OneCandidate(env: Env, q: Correlated, l: Row, r: Row, k: Bytes)
    requires JoinKey(env, l, q.leftKey) == Some(k) && JoinKey(env, r, q.rightKey) == Some(k) && !q.negated
    requires EvalPredicate(env, q.corr, l + r) == Ok(true)
    ensures LinkedRows(env, q, [l], [r]) == Ok([l])
  {
    var kr := KeyFor(env, q.rightKey);
    assert [r][..0] == [] && [l][..0] == [];
    assert WithKey(kr, [r][..0], k) == [];
    assert WithKey(kr, [r], k) == [r];
    assert AnyLinked(env, q.corr, l, [r]) == Ok(true);
    assert LinkedTest(env, q, [r], l) == Ok(true);
    var none: seq<Row> := [];
    assert LinkedRows(env, q, [l][..0], [r]) == Ok(none) && none + [l] == [l];
  }
}
