/** Access paths for `column = literal`: full scan, secondary-index scan, primary-key lookup. */
module AccessPaths {
  import opened ByteStrings
  import opened Values
  import opened Columns
  import opened Store
  import opened KeySpace
  import opened RowStore
  import opened IndexState
  import opened Dml
  import opened Engine
  import opened Expressions

  // ----- ordered selections of row ids -----

  function KeepIn(ids: seq<Bytes>, keep: set<Bytes>): seq<Bytes> {
    if ids == [] then []
    else
      var n := |ids| - 1;
      KeepIn(ids[..n], keep) + if ids[n] in keep then [ids[n]] else []
  }

  lemma {:induction false} KeepInExact(ids: seq<Bytes>, keep: set<Bytes>)
    requires Ascending(ids)
    ensures Ascending(KeepIn(ids, keep))
    ensures forall x :: x in KeepIn(ids, keep) <==> x in ids && x in keep
  {
    if ids != [] {
      var n := |ids| - 1;
      KeepInExact(ids[..n], keep);
      TakeStep(ids, n);
      TakeAll(ids);
      var kept := KeepIn(ids[..n], keep);
      forall i | 0 <= i < |kept| ensures Less(kept[i], ids[n]) {
        assert kept[i] in ids[..n];
      }
    }
  }

  /** Selecting from a sorted listing lists the selected ids in order. */
  lemma KeepSorted(ids: set<Bytes>, keep: set<Bytes>)
    ensures KeepIn(SortedKeys(ids), keep) == SortedKeys(ids * keep)
  {
    SortedAscending(ids);
    SortedAscending(ids * keep);
    KeepInExact(SortedKeys(ids), keep);
    AscendingUnique(KeepIn(SortedKeys(ids), keep), SortedKeys(ids * keep));
  }

  function RowsOf(rows: Table, ids: seq<Bytes>): seq<Row>
    requires AllIn(ids, rows)
  {
    if ids == [] then []
    else
      var n := |ids| - 1;
      RowsOf(rows, ids[..n]) + [ToRow(rows[ids[n]])]
  }

  lemma RowsOfSnoc(rows: Table, ids: seq<Bytes>, id: Bytes)
    requires AllIn(ids, rows) && id in rows
    ensures AllIn(ids + [id], rows) && RowsOf(rows, ids + [id]) == RowsOf(rows, ids) + [ToRow(rows[id])]
  {
    assert (ids + [id])[..|ids|] == ids;
  }

  lemma KeepAllIn(rows: Table, ids: seq<Bytes>, keep: set<Bytes>)
    requires keep <= rows.Keys
    ensures AllIn(KeepIn(ids, keep), rows)
  {
  }

  // ----- point lookups -----

  function LookupPrefix(t: Bytes, c: Bytes, key: Bytes): Bytes {
    EntryPrefix(t, c) + key + [NUL]
  }

  /** Row ids under the entries of one indexed value. */
  method LookupIds(tree: Tree, t: Bytes, c: Bytes, key: Bytes) returns (ids: seq<Bytes>)
    ensures ids == SortedKeys(Under(tree, LookupPrefix(t, c, key)))
  {
    var p := LookupPrefix(t, c, key);
    SegBounded(EntryPrefix(t, c) + key);
    ids := ScanSuffixes(tree, p);
  }

  lemma LookupUnder(tree: Tree, t: Bytes, c: Bytes, key: Bytes, id: Bytes)
    ensures id in Under(tree, LookupPrefix(t, c, key)) <==> Seg(key, id) in Entries(tree, t, c)
  {
    UnderIff(tree, LookupPrefix(t, c, key), id);
    UnderIff(tree, EntryPrefix(t, c), Seg(key, id));
    assert LookupPrefix(t, c, key) + id == EntryPrefix(t, c) + Seg(key, id);
  }

  /** One row by its id: the packed record overridden by legacy cells; nothing when it has no column. */
  method LoadRow(tree: Tree, t: Bytes, id: Bytes) returns (r: Option<Row>)
    requires PackedTable(tree, t)
    ensures r == RowAt(Rows(tree, t), id)
  {
    var k := PackedKey(t, id);
    var row: Row := if k in tree && tree[k].Packed? then ToRow(tree[k].cols) else [];
    RowsIff(tree, t, id);
    var p := RowPrefix(t, id);
    assert Bounded(p) by { assert p[|t|] == NUL; }
    var names := ScanSuffixes(tree, p);
    NoCellNames(tree, t, id);
    row := OverrideCells(tree, p, row, names);
    r := if row == [] then None else Some(row);
  }

  function OverrideCells(tree: Tree, p: Bytes, row: Row, names: seq<Bytes>): Row {
    if names == [] then row
    else
      var n := |names| - 1;
      var k := p + names[n];
      var before := OverrideCells(tree, p, row, names[..n]);
      if k in tree then SetColumn(before, names[n], Text(RecordBytes(tree[k]))) else before
  }

  lemma NoCellNames(tree: Tree, t: Bytes, id: Bytes)
    requires PackedTable(tree, t)
    ensures SortedKeys(Under(tree, RowPrefix(t, id))) == []
  {
    NoCells(tree, t, id);
    assert forall k :: k in tree ==> k !in KeysUnder(tree, RowPrefix(t, id));
    assert Under(tree, RowPrefix(t, id)) == {};
  }

  function RowAt(rows: Table, id: Bytes): Option<Row> {
    if id in rows && rows[id] != [] then Some(ToRow(rows[id])) else None
  }

  function LoadAll(rows: Table, ids: seq<Bytes>): seq<Row> {
    if ids == [] then []
    else
      var n := |ids| - 1;
      LoadAll(rows, ids[..n]) + match RowAt(rows, ids[n]) case Some(row) => [row] case None => []
  }

  lemma LoadStep(rows: Table, ids: seq<Bytes>, i: nat)
    requires i < |ids|
    ensures var before := LoadAll(rows, ids[..i]);
            LoadAll(rows, ids[..i + 1]) == match RowAt(rows, ids[i]) case Some(row) => before + [row] case None => before
  {
    TakeStep(ids, i);
  }

  method IndexScan(tree: Tree, t: Bytes, c: Bytes, key: Bytes) returns (rows: seq<Row>)
    requires PackedTable(tree, t)
    ensures rows == LoadAll(Rows(tree, t), SortedKeys(Under(tree, LookupPrefix(t, c, key))))
  {
    var ids := LookupIds(tree, t, c, key);
    rows := [];
    for i := 0 to |ids|
      invariant rows == LoadAll(Rows(tree, t), ids[..i])
    {
      LoadStep(Rows(tree, t), ids, i);
      var row := LoadRow(tree, t, ids[i]);
      if row.Some? { rows := rows + [row.value]; }
    }
    TakeAll(ids);
  }

  /** The ids of the rows whose column holds exactly this cell. */
  function Holding(rows: Table, c: Bytes, key: Bytes): set<Bytes> {
    set id | id in rows && Lookup(rows[id], c) == Some(key)
  }

  lemma {:induction false} LoadKept(rows: Table, ids: seq<Bytes>, keep: set<Bytes>)
    requires keep <= rows.Keys
    requires forall i :: 0 <= i < |ids| ==> (RowAt(rows, ids[i]).Some? <==> ids[i] in keep)
    ensures AllIn(KeepIn(ids, keep), rows) && LoadAll(rows, ids) == RowsOf(rows, KeepIn(ids, keep))
  {
    KeepAllIn(rows, ids, keep);
    if ids != [] {
      var n := |ids| - 1;
      LoadKept(rows, ids[..n], keep);
      var kept := KeepIn(ids[..n], keep);
      if ids[n] in keep { RowsOfSnoc(rows, kept, ids[n]); } else { assert kept + [] == kept; }
    }
  }

  /** An exact index finds, in row-id order, exactly the rows that hold the key, whatever bytes it has. */
  lemma IndexScanExact(tree: Tree, t: Bytes, c: Bytes, key: Bytes)
    requires TableOk(tree, t) && c in Indexed(tree, t)
    ensures var rows := Rows(tree, t);
            && AllIn(SortedKeys(Holding(rows, c, key)), rows)
            && LoadAll(rows, SortedKeys(Under(tree, LookupPrefix(t, c, key)))) ==
               RowsOf(rows, SortedKeys(Holding(rows, c, key)))
  {
    var rows := Rows(tree, t);
    var found := Under(tree, LookupPrefix(t, c, key));
    var hold := Holding(rows, c, key);
    assert IndexExact(tree, t, c);
    forall id ensures id in found && id in rows <==> id in hold {
      LookupUnder(tree, t, c, key, id);
      EntryHolds(rows, c, key, id);
    }
    assert found * hold == hold;
    KeepSorted(found, hold);
    var ids := SortedKeys(found);
    forall i | 0 <= i < |ids| ensures RowAt(rows, ids[i]).Some? <==> ids[i] in hold {
      assert ids[i] in ids;
    }
    LoadKept(rows, ids, hold);
  }

  lemma EntryHolds(rows: Table, c: Bytes, key: Bytes, id: Bytes)
    requires TableRows(rows)
    ensures id in rows ==> (Seg(key, id) in IndexOf(rows, c) <==> Lookup(rows[id], c) == Some(key))
  {
    if id in rows && Seg(key, id) in IndexOf(rows, c) {
      var x :| x in rows && Seg(key, id) in EntryOf(rows[x], c, x);
      SegTailInjective(key, id, Lookup(rows[x], c).value, x);
    }
    if id in rows && Lookup(rows[id], c) == Some(key) {
      assert Seg(key, id) in EntryOf(rows[id], c, id);
    }
  }

  // ----- the filtered full scan -----

  function FullScan(rows: Table): seq<Row> {
    RowsOf(rows, Ids(rows))
  }

  lemma {:induction false} FilterKept(env: Env, rows: Table, ids: seq<Bytes>, pred: Expr, keep: set<Bytes>)
    requires AllIn(ids, rows) && keep <= rows.Keys
    requires forall i :: 0 <= i < |ids| ==> EvalPredicate(env, pred, ToRow(rows[ids[i]])) == Ok(ids[i] in keep)
    ensures AllIn(KeepIn(ids, keep), rows)
    ensures FilterRows(env, RowsOf(rows, ids), pred) == Ok(RowsOf(rows, KeepIn(ids, keep)))
  {
    KeepAllIn(rows, ids, keep);
    if ids != [] {
      var n := |ids| - 1;
      FilterKept(env, rows, ids[..n], pred, keep);
      var all := RowsOf(rows, ids);
      assert all[..|all| - 1] == RowsOf(rows, ids[..n]);
      var kept := KeepIn(ids[..n], keep);
      if ids[n] in keep { RowsOfSnoc(rows, kept, ids[n]); } else { assert kept + [] == kept; }
    }
  }

  /** A predicate that is defined on every row and true exactly on `keep` selects those rows in order. */
  lemma FilterExact(env: Env, rows: Table, pred: Expr, keep: set<Bytes>)
    requires keep <= rows.Keys
    requires forall id :: id in rows ==> EvalPredicate(env, pred, ToRow(rows[id])) == Ok(id in keep)
    ensures AllIn(SortedKeys(keep), rows)
    ensures FilterRows(env, FullScan(rows), pred) == Ok(RowsOf(rows, SortedKeys(keep)))
  {
    FilterKept(env, rows, Ids(rows), pred, keep);
    KeepSorted(rows.Keys, keep);
    assert rows.Keys * keep == keep;
  }

  // ----- equality predicates -----

  function LiteralBytes(env: Env, lit: Lit): Bytes {
    match lit
    case NullLit => []
    case IntLit(n) => Decimal(n)
    case FloatLit(x) => env.floatText(x)
    case StringLit(s) => s
    case BoolLit(b) => [if b then 1 else 0]
  }

  /** `column = literal`, either way round and in any number of parentheses. */
  function Equality(e: Expr): Option<(Option<Bytes>, Bytes, Lit)> {
    match e
    case Binary(Eq, Column(t, c), Literal(lit)) => Some((t, c, lit))
    case Binary(Eq, Literal(lit), Column(t, c)) => Some((t, c, lit))
    case Paren(x) => Equality(x)
    case _ => None
  }

  /** The rows resolve the column to their own cell of that name. */
  predicate Carries(rows: Table, table: Option<Bytes>, c: Bytes) {
    forall id :: id in rows ==>
      Lookup(rows[id], c).Some? && (table.Some? ==> Lookup(rows[id], Qualify(table.value, c)).None?)
  }

  lemma {:induction false} EqualityEval(env: Env, e: Expr, cols: Cols)
    requires Equality(e).Some?
    requires var (t, c, lit) := Equality(e).value;
             Lookup(cols, c).Some? && (t.Some? ==> Lookup(cols, Qualify(t.value, c)).None?)
    ensures var (t, c, lit) := Equality(e).value;
            EvalPredicate(env, e, ToRow(cols)) == Ok(SqlEq(env, Text(Lookup(cols, c).value), LitValue(lit)) == Some(true))
  {
    if e.Paren? {
      EqualityEval(env, e.expr, cols);
    } else {
      var (t, c, lit) := Equality(e).value;
      LookupToRow(cols, c);
      if t.Some? { LookupToRow(cols, Qualify(t.value, c)); }
      var cell := Text(Lookup(cols, c).value);
      assert Eval(env, Column(t, c), ToRow(cols)) == Ok(cell);
      assert Eval(env, Literal(lit), ToRow(cols)) == Ok(LitValue(lit));
      SqlEqSymmetric(env, cell, LitValue(lit));
      assert Eval(env, e, ToRow(cols)) == Ok(EqValue(SqlEq(env, cell, LitValue(lit)), true));
    }
  }

  /** The ids of the rows on which the equality is true. */
  function Satisfying(env: Env, rows: Table, c: Bytes, lit: Lit): set<Bytes> {
    set id | id in rows && Lookup(rows[id], c).Some? && SqlEq(env, Text(Lookup(rows[id], c).value), LitValue(lit)) == Some(true)
  }

  /** The filtered full scan of an equality lists the rows that satisfy it. */
  lemma FilterEquality(env: Env, rows: Table, e: Expr)
    requires Equality(e).Some? && Carries(rows, Equality(e).value.0, Equality(e).value.1)
    ensures var (t, c, lit) := Equality(e).value;
            && AllIn(SortedKeys(Satisfying(env, rows, c, lit)), rows)
            && FilterRows(env, FullScan(rows), e) == Ok(RowsOf(rows, SortedKeys(Satisfying(env, rows, c, lit))))
  {
    var (t, c, lit) := Equality(e).value;
    var keep := Satisfying(env, rows, c, lit);
    forall id | id in rows ensures EvalPredicate(env, e, ToRow(rows[id])) == Ok(id in keep) {
      EqualityEval(env, e, rows[id]);
    }
    FilterExact(env, rows, e, keep);
  }

  // ----- plan choice -----

  datatype Access = PkLookup(key: Bytes) | IndexLookup(column: Bytes, key: Bytes) | ScanAndFilter

  /** The planner's choice for a filter directly above a table scan. */
  function ChooseAccess(env: Env, tree: Tree, t: Bytes, e: Expr): Access {
    match Equality(e)
    case None => ScanAndFilter
    case Some((_, c, lit)) =>
      if MarkerKey(t) in tree && RecordBytes(tree[MarkerKey(t)]) == c then PkLookup(LiteralBytes(env, lit))
      else if MetaKey(t, c) in tree then IndexLookup(c, LiteralBytes(env, lit))
      else ScanAndFilter
  }

  /** The rows each access path returns. */
  function RunAccess(env: Env, tree: Tree, t: Bytes, e: Expr, a: Access): Result<seq<Row>> {
    var rows := Rows(tree, t);
    match a
    case PkLookup(key) => Ok(match RowAt(rows, key) case Some(row) => [row] case None => [])
    case IndexLookup(c, key) => Ok(LoadAll(rows, SortedKeys(Under(tree, LookupPrefix(t, c, key)))))
    case ScanAndFilter => FilterRows(env, FullScan(rows), e)
  }

  /** The key column of every row repeats its row id. */
  predicate KeyIsId(rows: Table, pk: Bytes) {
    forall id :: id in rows ==> Lookup(rows[id], pk) == Some(id)
  }

  lemma MarkedIndexed(tree: Tree, t: Bytes, c: Bytes)
    ensures MetaKey(t, c) in tree <==> c in Indexed(tree, t)
  {
    UnderIff(tree, MetaPrefix(t), c);
    assert MetaPrefix(t) + c == MetaKey(t, c);
  }

  lemma PkLookupExact(rows: Table, pk: Bytes, key: Bytes)
    requires KeyIsId(rows, pk)
    ensures Holding(rows, pk, key) == if key in rows then {key} else {}
    ensures AllIn(SortedKeys(Holding(rows, pk, key)), rows)
    ensures (match RowAt(rows, key) case Some(row) => [row] case None => []) == RowsOf(rows, SortedKeys(Holding(rows, pk, key)))
  {
    var hold := Holding(rows, pk, key);
    var ids := SortedKeys(hold);
    assert forall i :: 0 <= i < |ids| ==> ids[i] in ids;
    if key in rows {
      assert hold == {key};
      assert |ids| == 1 && ids[0] in hold;
      assert ids == [key] && ids[..0] == [];
      assert RowsOf(rows, ids[..0]) == [];
    }
  }

  /**
   * Whatever path the planner chooses for `column = literal`, it returns the rows that hold the
   * literal's stored bytes, in row-id order.
   */
  lemma AccessFindsCells(env: Env, tree: Tree, t: Bytes, e: Expr)
    requires TableOk(tree, t) && Equality(e).Some?
    requires MarkerKey(t) in tree ==> KeyIsId(Rows(tree, t), RecordBytes(tree[MarkerKey(t)]))
    requires !ChooseAccess(env, tree, t, e).ScanAndFilter?
    ensures var (_, c, lit) := Equality(e).value;
            var ids := SortedKeys(Holding(Rows(tree, t), c, LiteralBytes(env, lit)));
            AllIn(ids, Rows(tree, t)) && RunAccess(env, tree, t, e, ChooseAccess(env, tree, t, e)) == Ok(RowsOf(Rows(tree, t), ids))
  {
    var (_, c, lit) := Equality(e).value;
    var key := LiteralBytes(env, lit);
    if ChooseAccess(env, tree, t, e).PkLookup? {
      PkLookupExact(Rows(tree, t), c, key);
    } else {
      MarkedIndexed(tree, t, c);
      IndexScanExact(tree, t, c, key);
    }
  }

  lemma AccessAgrees(env: Env, tree: Tree, t: Bytes, e: Expr, c: Bytes, lit: Lit)
    requires TableOk(tree, t)
    requires MarkerKey(t) in tree ==> KeyIsId(Rows(tree, t), RecordBytes(tree[MarkerKey(t)]))
    requires Equality(e).Some? && Equality(e).value.1 == c && Equality(e).value.2 == lit
    requires Carries(Rows(tree, t), Equality(e).value.0, c)
    requires !ChooseAccess(env, tree, t, e).ScanAndFilter?
    ensures var rows := Rows(tree, t);
            var ids, found := SortedKeys(Satisfying(env, rows, c, lit)), SortedKeys(Holding(rows, c, LiteralBytes(env, lit)));
            && AllIn(ids, rows) && FilterRows(env, FullScan(rows), e) == Ok(RowsOf(rows, ids))
            && AllIn(found, rows) && RunAccess(env, tree, t, e, ChooseAccess(env, tree, t, e)) == Ok(RowsOf(rows, found))
  {
    AccessFindsCells(env, tree, t, e);
    FilterEquality(env, Rows(tree, t), e);
  }

  lemma StringSatisfies(env: Env, rows: Table, c: Bytes, s: Bytes)
    ensures Satisfying(env, rows, c, StringLit(s)) == Holding(rows, c, s)
  {
  }

  lemma NullSatisfies(env: Env, rows: Table, c: Bytes)
    ensures Satisfying(env, rows, c, NullLit) == {}
    ensures Holding(rows, c, []) == {} <==> forall id :: id in rows ==> Lookup(rows[id], c) != Some([])
  {
    assert forall id :: id in Holding(rows, c, []) <==> id in rows && Lookup(rows[id], c) == Some([]);
  }

  /** For a string literal the chosen path returns exactly what filtering the full scan returns. */
  lemma AccessSound(env: Env, tree: Tree, t: Bytes, e: Expr, c: Bytes, s: Bytes)
    requires TableOk(tree, t)
    requires MarkerKey(t) in tree ==> KeyIsId(Rows(tree, t), RecordBytes(tree[MarkerKey(t)]))
    requires Equality(e).Some? && Equality(e).value.1 == c && Equality(e).value.2 == StringLit(s)
    requires Carries(Rows(tree, t), Equality(e).value.0, c)
    ensures RunAccess(env, tree, t, e, ChooseAccess(env, tree, t, e)) == FilterRows(env, FullScan(Rows(tree, t)), e)
  {
    if !ChooseAccess(env, tree, t, e).ScanAndFilter? {
      AccessAgrees(env, tree, t, e, c, StringLit(s));
      StringSatisfies(env, Rows(tree, t), c, s);
    }
  }

  /**
   * `column = NULL` is never true, but the index paths look for the empty cell: they agree with the
   * filtered scan exactly when no row holds an empty cell in the column.
   */
  lemma AccessNull(env: Env, tree: Tree, t: Bytes, e: Expr, c: Bytes)
    requires TableOk(tree, t)
    requires MarkerKey(t) in tree ==> KeyIsId(Rows(tree, t), RecordBytes(tree[MarkerKey(t)]))
    requires Equality(e).Some? && Equality(e).value.1 == c && Equality(e).value.2.NullLit?
    requires Carries(Rows(tree, t), Equality(e).value.0, c)
    requires !ChooseAccess(env, tree, t, e).ScanAndFilter?
    ensures RunAccess(env, tree, t, e, ChooseAccess(env, tree, t, e)) == FilterRows(env, FullScan(Rows(tree, t)), e)
            <==> forall id :: id in Rows(tree, t) ==> Lookup(Rows(tree, t)[id], c) != Some([])
  {
    var rows := Rows(tree, t);
    AccessAgrees(env, tree, t, e, c, NullLit);
    NullSatisfies(env, rows, c);
    RowsOfLength(rows, SortedKeys(Holding(rows, c, [])));
    RowsOfLength(rows, SortedKeys(Satisfying(env, rows, c, NullLit)));
  }

  lemma {:induction false} RowsOfLength(rows: Table, ids: seq<Bytes>)
    requires AllIn(ids, rows)
    ensures |RowsOf(rows, ids)| == |ids|
  {
    if ids != [] { RowsOfLength(rows, ids[..|ids| - 1]); }
  }

  // ----- the key column keeps repeating the row id -----

  lemma {:induction false} InsertKeepsKey(env: Env, schema: TableSchema, rows: Table, names: seq<Bytes>, values: seq<seq<Result<Value>>>)
    requires names != [] && Distinct(names) && names[0] in schema.primaryKey && KeyIsId(rows, names[0])
    requires forall i :: 0 <= i < |values| && values[i] != [] && values[i][0].Ok? ==> !values[i][0].value.Bool?
    ensures KeyIsId(InsertAll(env, schema, rows, names, values).0, names[0])
    decreases |values|
  {
    if values != [] {
      var p := PrepareInsert(env, schema, rows, names, values[0]);
      if p.Ok? {
        var (id, cols) := p.value;
        assert Position(names, names[0]) == Some(0);
        assert values[0][0].Ok? && cols[0] == (names[0], CellBytes(env, values[0][0].value));
        var key := values[0][0].value;
        CheckKeyFresh(env, schema.primaryKey, rows, names, EvalAll(values[0]).value);
        assert id == RowId(env, key) == CellBytes(env, key) == cols[0].1;
        InsertKeepsKey(env, schema, rows[id := cols], names, values[1..]);
      }
    }
  }

  /** An UPDATE keeps the key column equal to the row id when it does not assign it. */
  lemma {:induction false} UpdateKeepsKey(env: Env, schema: TableSchema, rows: Table, ids: seq<Bytes>, sets: seq<Assignment>, pk: Bytes)
    requires forall i :: 0 <= i < |ids| ==> ids[i] in rows
    requires SetsOk(sets) && KeyIsId(rows, pk)
    requires forall i :: 0 <= i < |sets| ==> sets[i].column != pk
    ensures KeyIsId(UpdateAll(env, schema, rows, ids, sets).0, pk)
    decreases |ids|
  {
    if ids != [] {
      var p := PrepareUpdate(env, schema, ToRow(rows[ids[0]]), sets);
      if p.Ok? {
        PrepareUpdateDistinct(env, schema, ToRow(rows[ids[0]]), sets);
        ApplySetsReads(rows[ids[0]], p.value, pk);
        assert pk !in Names(p.value);
        UpdateKeepsKey(env, schema, rows[ids[0] := ApplySets(rows[ids[0]], p.value)], ids[1..], sets, pk);
      }
    }
  }

  /** Assigning the key of a row keeps the property exactly when it assigns the row id again. */
  lemma UpdateKeyExact(rows: Table, id: Bytes, pending: Cols, pk: Bytes)
    requires KeyIsId(rows, pk) && id in rows && Distinct(Names(pending)) && pk in Names(pending)
    ensures KeyIsId(rows[id := ApplySets(rows[id], pending)], pk) <==> Lookup(pending, pk) == Some(id)
  {
    ApplySetsReads(rows[id], pending, pk);
    var after := rows[id := ApplySets(rows[id], pending)];
    if KeyIsId(after, pk) {
      assert Lookup(after[id], pk) == Some(id);
    }
  }

  /** A statement that leaves key and row id tied: it inserts checked, non-boolean keys and assigns no key. */
  predicate TiesKey(schema: Schema, t: Bytes, pk: Bytes, s: Statement) {
    s.table == t ==>
      match s
      case Insert(_, columns, values) =>
        var names := InsertNames(schema, t, columns);
        names.Some? && names.value != [] ==>
          && names.value[0] == pk && Distinct(names.value) && pk in SchemaOf(schema, t).primaryKey
          && forall i :: 0 <= i < |values| && values[i] != [] && values[i][0].Ok? ==> !values[i][0].value.Bool?
      case Update(_, sets, _) => SetsOk(sets) && forall i :: 0 <= i < |sets| ==> sets[i].column != pk
      case _ => true
  }

  lemma EffectKeepsKey(env: Env, schema: Schema, t: Bytes, pk: Bytes, rows: Table, s: Statement)
    requires TiesKey(schema, t, pk, s) && KeyIsId(rows, pk)
    ensures KeyIsId(Effect(env, schema, t, rows, s).0, pk)
  {
    if s.table == t {
      match s
      case Insert(_, columns, values) => InsertTies(env, schema, t, pk, rows, s);
      case Update(_, sets, where) => UpdateTies(env, schema, t, pk, rows, sets, where);
      case _ =>
    }
  }

  lemma InsertTies(env: Env, schema: Schema, t: Bytes, pk: Bytes, rows: Table, s: Statement)
    requires s.Insert? && s.table == t && TiesKey(schema, t, pk, s) && KeyIsId(rows, pk)
    ensures KeyIsId(InsertEffect(env, schema, t, rows, s.columns, s.values).0, pk)
  {
    var names := InsertNames(schema, t, s.columns);
    if names.Some? && names.value != [] { InsertKeepsKey(env, SchemaOf(schema, t), rows, names.value, s.values); }
  }

  lemma UpdateEffectIs(env: Env, schema: Schema, t: Bytes, rows: Table, sets: seq<Assignment>, where: Filter)
    requires Matching(rows, Ids(rows), where).Ok? && AllIn(Matching(rows, Ids(rows), where).value, rows)
    ensures UpdateEffect(env, schema, t, rows, sets, where).0
         == UpdateAll(env, SchemaOf(schema, t), rows, Matching(rows, Ids(rows), where).value, sets).0
  {
  }

  lemma UpdateTies(env: Env, schema: Schema, t: Bytes, pk: Bytes, rows: Table, sets: seq<Assignment>, where: Filter)
    requires SetsOk(sets) && KeyIsId(rows, pk) && forall i :: 0 <= i < |sets| ==> sets[i].column != pk
    ensures KeyIsId(UpdateEffect(env, schema, t, rows, sets, where).0, pk)
  {
    var ids := Matching(rows, Ids(rows), where);
    if ids.Ok? {
      MatchedOk(rows, where);
      UpdateEffectIs(env, schema, t, rows, sets, where);
      UpdateKeepsKey(env, SchemaOf(schema, t), rows, ids.value, sets, pk);
    }
  }

  /** Over any such run, point lookups by key stay sound. */
  lemma {:induction false} RunKeepsKey(env: Env, schema: Schema, t: Bytes, pk: Bytes, rows: Table, stmts: seq<Statement>)
    requires forall i :: 0 <= i < |stmts| ==> TiesKey(schema, t, pk, stmts[i])
    requires KeyIsId(rows, pk)
    ensures KeyIsId(RunOn(env, schema, t, rows, stmts), pk)
  {
    if stmts != [] {
      var n := |stmts| - 1;
      RunKeepsKey(env, schema, t, pk, rows, stmts[..n]);
      EffectKeepsKey(env, schema, t, pk, RunOn(env, schema, t, rows, stmts[..n]), stmts[n]);
    }
  }
}
