/** Lookups through the planner's access paths after whole runs of statements. */
module AccessRuns {
  import opened ByteStrings
  import opened Values
  import opened Store
  import opened KeySpace
  import opened RowStore
  import opened IndexState
  import opened Dml
  import opened Engine
  import opened Expressions
  import opened AccessPaths

  // ----- the access paths, executed -----

  lemma {:induction false} FilterStops(env: Env, rows: seq<Row>, pred: Expr, i: nat)
    requires i <= |rows| && FilterRows(env, rows[..i], pred).Err?
    ensures FilterRows(env, rows, pred) == FilterRows(env, rows[..i], pred)
    decreases |rows| - i
  {
    if i == |rows| {
      TakeAll(rows);
    } else {
      TakeStep(rows, i);
      FilterStops(env, rows, pred, i + 1);
    }
  }

  function WithoutIds(listed: seq<(Bytes, Row)>): (rows: seq<Row>)
    ensures |rows| == |listed| && forall i :: 0 <= i < |rows| ==> rows[i] == listed[i].1
  {
    seq(|listed|, i requires 0 <= i < |listed| => listed[i].1)
  }

  lemma {:induction false} ListedRows(rows: Table, ids: seq<Bytes>)
    requires AllIn(ids, rows)
    ensures WithoutIds(Listing(rows, ids)) == RowsOf(rows, ids)
  {
    if ids != [] {
      var n := |ids| - 1;
      ListedRows(rows, ids[..n]);
      var before := Listing(rows, ids[..n]);
      SameElements(WithoutIds(before + [(ids[n], ToRow(rows[ids[n]]))]), WithoutIds(before) + [ToRow(rows[ids[n]])]);
    }
  }

  method FilterListed(env: Env, listed: seq<(Bytes, Row)>, pred: Expr) returns (r: Result<seq<Row>>)
    ensures r == FilterRows(env, WithoutIds(listed), pred)
  {
    ghost var rows := WithoutIds(listed);
    var kept: seq<Row> := [];
    for i := 0 to |listed|
      invariant FilterRows(env, rows[..i], pred) == Ok(kept)
    {
      TakeStep(rows, i);
      var keep := EvalPredicate(env, pred, listed[i].1);
      if keep.Err? {
        FilterStops(env, rows, pred, i + 1);
        return Err(keep.error);
      }
      if keep.value { kept := kept + [listed[i].1]; }
    }
    TakeAll(rows);
    r := Ok(kept);
  }

  method SelectByScan(env: Env, tree: Tree, t: Bytes, e: Expr) returns (r: Result<seq<Row>>)
    requires PackedTable(tree, t)
    ensures r == FilterRows(env, FullScan(Rows(tree, t)), e)
  {
    var listed := ScanTable(tree, t);
    ListedRows(Rows(tree, t), Ids(Rows(tree, t)));
    r := FilterListed(env, listed, e);
  }

  method SelectByKey(tree: Tree, t: Bytes, key: Bytes) returns (rows: seq<Row>)
    requires PackedTable(tree, t)
    ensures rows == match RowAt(Rows(tree, t), key) case Some(row) => [row] case None => []
  {
    var row := LoadRow(tree, t, key);
    rows := if row.Some? then [row.value] else [];
  }

  /** An access path, executed. */
  method RunPath(env: Env, tree: Tree, t: Bytes, e: Expr, path: Access) returns (r: Result<seq<Row>>)
    requires PackedTable(tree, t)
    ensures r == RunAccess(env, tree, t, e, path)
  {
    if path.ScanAndFilter? {
      r := SelectByScan(env, tree, t, e);
    } else {
      var rows;
      if path.PkLookup? { rows := SelectByKey(tree, t, path.key); } else { rows := IndexScan(tree, t, path.column, path.key); }
      r := Ok(rows);
    }
  }

  // ----- after a run -----

  /** After any such run the chosen path for `column = 'literal'` returns what filtering the table's rows returns. */
  lemma AccessAfterRun(env: Env, schema: Schema, tree: Tree, t: Bytes, pk: Bytes, rows: Table, stmts: seq<Statement>, e: Expr, c: Bytes, s: Bytes)
    requires forall i :: 0 <= i < |stmts| ==> TiesKey(schema, t, pk, stmts[i])
    requires KeyIsId(rows, pk) && TableOk(tree, t) && Rows(tree, t) == RunOn(env, schema, t, rows, stmts)
    requires MarkerKey(t) in tree ==> RecordBytes(tree[MarkerKey(t)]) == pk
    requires Equality(e).Some? && Equality(e).value.1 == c && Equality(e).value.2 == StringLit(s)
    requires Carries(Rows(tree, t), Equality(e).value.0, c)
    ensures RunAccess(env, tree, t, e, ChooseAccess(env, tree, t, e)) == FilterRows(env, FullScan(RunOn(env, schema, t, rows, stmts)), e)
  {
    RunKeepsKey(env, schema, t, pk, rows, stmts);
    AccessSound(env, tree, t, e, c, s);
  }

  /** Run the statements, then read the table through the path the planner chooses for `column = 'literal'`. */
  method RunThenSelect(engine: LocalEngine, stmts: seq<Statement>, t: Bytes, ghost pk: Bytes, e: Expr, c: Bytes, s: Bytes)
    returns (r: Result<seq<Row>>)
    requires engine.Valid() && SafeTable(t) && KeyIsId(Rows(engine.tree, t), pk)
    requires RunOk(engine.env, engine.schema, engine.tree, stmts) && forall i :: 0 <= i < |stmts| ==> TiesKey(engine.schema, t, pk, stmts[i])
    requires Equality(e).Some? && Equality(e).value.1 == c && Equality(e).value.2 == StringLit(s)
    modifies engine
    ensures engine.Valid()
    ensures var rows := RunOn(engine.env, engine.schema, t, old(Rows(engine.tree, t)), stmts);
            (MarkerKey(t) in engine.tree ==> RecordBytes(engine.tree[MarkerKey(t)]) == pk) && Carries(rows, Equality(e).value.0, c) ==>
              r == FilterRows(engine.env, FullScan(rows), e)
  {
    ghost var start := engine.tree;
    ghost var before := Rows(start, t);
    engine.Run(stmts);
    var tree := engine.tree;
    assert TableOk(tree, t) && ReachedOn(engine.env, engine.schema, start, tree, stmts, t);
    r := RunPath(engine.env, tree, t, e, ChooseAccess(engine.env, tree, t, e));
    if (MarkerKey(t) in tree ==> RecordBytes(tree[MarkerKey(t)]) == pk) && Carries(Rows(tree, t), Equality(e).value.0, c) {
      AccessAfterRun(engine.env, engine.schema, tree, t, pk, before, stmts, e, c, s);
    }
  }

  // ----- an index on a column with an empty cell -----

  /** Rows, indexed columns and entries of the table; `es` are the entries of column `c`, other columns have none. */
  ghost predicate Holds(tree: Tree, t: Bytes, rows: Table, indexed: set<Bytes>, c: Bytes, es: set<Bytes>) {
    && PackedTable(tree, t) && Rows(tree, t) == rows && Indexed(tree, t) == indexed
    && forall x {:trigger Entries(tree, t, x)} :: NulFree(x) ==> Entries(tree, t, x) == if x == c then es else {}
  }

  lemma HoldsNothing(t: Bytes, c: Bytes)
    ensures Holds(map[], t, map[], {}, c, {})
  {
    assert Rows(map[], t) == map[];
    assert forall x :: Indexed(map[], t) == {} && Entries(map[], t, x) == {};
  }

  lemma HoldsRow(tree: Tree, t: Bytes, c: Bytes, id: Bytes, cols: Cols) returns (after: Tree)
    requires SafeTable(t) && NulFree(id) && Holds(tree, t, map[], {}, c, {})
    ensures Holds(after, t, map[id := cols], {}, c, {}) && after.Keys == tree.Keys + {PackedKey(t, id)}
  {
    after := tree[PackedKey(t, id) := Packed(cols)];
    RowWrite(tree, t, id, cols);
    assert map[][id := cols] == map[id := cols];
  }

  lemma HoldsEntry(tree: Tree, t: Bytes, rows: Table, c: Bytes, v: Bytes, id: Bytes) returns (after: Tree)
    requires SafeTable(t) && NulFree(c) && Holds(tree, t, rows, {}, c, {})
    ensures Holds(after, t, rows, {}, c, {Seg(v, id)}) && after.Keys == tree.Keys + {EntryKey(t, c, v, id)}
  {
    after := tree[EntryKey(t, c, v, id) := Raw([])];
    EntryPut(tree, t, c, v, id);
    SameRowsRows(tree, after, t);
  }

  lemma HoldsMeta(tree: Tree, t: Bytes, rows: Table, c: Bytes, es: set<Bytes>) returns (after: Tree)
    requires SafeTable(t) && Holds(tree, t, rows, {}, c, es)
    ensures Holds(after, t, rows, {c}, c, es) && after.Keys == tree.Keys + {MetaKey(t, c)}
  {
    after := tree[MetaKey(t, c) := Raw([])];
    MetaPut(tree, t, c, Raw([]));
    SameRowsRows(tree, after, t);
  }

  lemma HoldsOk(tree: Tree, t: Bytes, c: Bytes, v: Bytes, id: Bytes, cols: Cols)
    requires NulFree(c) && NulFree(id) && Distinct(Names(cols)) && Lookup(cols, c) == Some(v)
    requires Holds(tree, t, map[id := cols], {c}, c, {Seg(v, id)})
    ensures TableOk(tree, t)
  {
    IndexAdd(map[], id, cols, c);
    assert map[][id := cols] == map[id := cols];
    assert IndexOf(map[], c) == {};
    forall x | NulFree(x) ensures IndexExact(tree, t, x) {
      assert Entries(tree, t, x) == if x == c then {Seg(v, id)} else {};
    }
  }

  lemma MarkerApart(t: Bytes, c: Bytes, v: Bytes, id: Bytes)
    requires SafeTable(t)
    ensures MarkerKey(t) !in {PackedKey(t, id), EntryKey(t, c, v, id), MetaKey(t, c)}
  {
    SegInjective(PK_META, t, t, id);
    SegInjective(PK_META, t, IDX, Seg(t, Seg(c, Seg(v, id))));
    SegInjective(PK_META, t, IDX_META, Seg(t, c));
  }

  /** The store after inserting one row and indexing its column `c`. */
  lemma OneRowTree(t: Bytes, c: Bytes, v: Bytes, id: Bytes, cols: Cols) returns (tree: Tree)
    requires SafeTable(t) && NulFree(c) && NulFree(id) && Distinct(Names(cols)) && Lookup(cols, c) == Some(v)
    ensures TableOk(tree, t) && Rows(tree, t) == map[id := cols]
    ensures tree.Keys == {PackedKey(t, id), EntryKey(t, c, v, id), MetaKey(t, c)}
  {
    tree := map[];
    HoldsNothing(t, c);
    tree := HoldsRow(tree, t, c, id, cols);
    tree := HoldsEntry(tree, t, map[id := cols], c, v, id);
    tree := HoldsMeta(tree, t, map[id := cols], c, {Seg(v, id)});
    HoldsOk(tree, t, c, v, id, cols);
  }

  lemma OneHolding(rows: Table, c: Bytes, v: Bytes, id: Bytes, cols: Cols)
    requires rows == map[id := cols] && Lookup(cols, c) == Some(v)
    ensures Holding(rows, c, v) == {id} && Carries(rows, None, c)
  {
  }

  /** One row with an empty indexed cell: `c = NULL` is true nowhere, and the index path returns the row. */
  lemma NullFindsEmpty(env: Env, tree: Tree, t: Bytes, c: Bytes, id: Bytes, cols: Cols, e: Expr)
    requires SafeTable(t) && TableOk(tree, t) && MarkerKey(t) !in tree && MetaKey(t, c) in tree
    requires Rows(tree, t) == map[id := cols] && Lookup(cols, c) == Some([])
    requires Equality(e) == Some((None, c, NullLit))
    ensures FilterRows(env, FullScan(Rows(tree, t)), e) == Ok([])
    ensures RunAccess(env, tree, t, e, ChooseAccess(env, tree, t, e)) == Ok([ToRow(cols)])
  {
    var rows := Rows(tree, t);
    OneHolding(rows, c, [], id, cols);
    AccessAgrees(env, tree, t, e, c, NullLit);
    NullSatisfies(env, rows, c);
    OneRow(rows, id);
  }

  /** `SELECT * FROM t WHERE c = NULL` on the indexed row `id = 1, c = ''`. */
  lemma NullFindsRow(env: Env) returns (tree: Tree)
    ensures var t, c, id: Bytes := [116], [99], [49];
            var cols: Cols, e := [([105, 100], id), (c, [])], Binary(Eq, Column(None, c), Literal(NullLit));
            && TableOk(tree, t) && Rows(tree, t) == map[id := cols] && ChooseAccess(env, tree, t, e) == IndexLookup(c, [])
            && FilterRows(env, FullScan(Rows(tree, t)), e) == Ok([])
            && RunAccess(env, tree, t, e, IndexLookup(c, [])) == Ok([ToRow(cols)])
  {
    var t, c, id: Bytes := [116], [99], [49];
    var cols: Cols, e := [([105, 100], id), (c, [])], Binary(Eq, Column(None, c), Literal(NullLit));
    assert t[0] != IDX[0] && t[0] != IDX_META[0] && t[0] != PK_META[0];
    assert cols[0].0[0] != c[0] && cols[1..] == [(c, [])];
    assert Lookup(cols, c) == Some([]);
    tree := OneRowTree(t, c, [], id, cols);
    MarkerApart(t, c, [], id);
    assert Equality(e) == Some((None, c, NullLit));
    NullFindsEmpty(env, tree, t, c, id, cols, e);
  }

  lemma OneRow(rows: Table, id: Bytes)
    requires id in rows
    ensures SortedKeys({id}) == [id] && RowsOf(rows, [id]) == [ToRow(rows[id])] && SortedKeys({}) == []
  {
    var ids := SortedKeys({id});
    assert |ids| == 1 && ids[0] in ids;
    assert [id][..0] == [];
    assert RowsOf(rows, [id][..0]) == [];
  }
}
