/**
 * The meaning of DML on one table: a map from row ids to rows. INSERT, UPDATE and DELETE are
 * given here without keys, indexes or scans; `Dml` shows that the engine's writes amount to this.
 */
module RowStore {
  import opened ByteStrings
  import opened Values

  type Table = map<Bytes, Cols>

  datatype ColumnMeta = ColumnMeta(name: Bytes, notNull: bool, primaryKey: bool, unique: bool)

  datatype TableSchema = TableSchema(columns: seq<ColumnMeta>, primaryKey: seq<Bytes>)

  /** `SET column = expr`; the expression is evaluated on the row being updated. */
  datatype Assignment = Assignment(column: Bytes, expr: Row -> Result<Value>)

  type Filter = Option<Row -> Result<bool>>

  function ColumnNames(columns: seq<ColumnMeta>): (r: seq<Bytes>)
    ensures |r| == |columns| && forall i :: 0 <= i < |r| ==> r[i] == columns[i].name
  {
    if columns == [] then [] else [columns[0].name] + ColumnNames(columns[1..])
  }

  function FindColumn(columns: seq<ColumnMeta>, name: Bytes): Option<ColumnMeta> {
    if columns == [] then None
    else if columns[0].name == name then Some(columns[0])
    else FindColumn(columns[1..], name)
  }

  function Position(names: seq<Bytes>, name: Bytes): (r: Option<nat>)
    ensures r.Some? ==> r.value < |names| && names[r.value] == name
    ensures r.None? ==> name !in names
  {
    if names == [] then None
    else if names[0] == name then Some(0)
    else match Position(names[1..], name) case Some(i) => Some(i + 1) case None => None
  }

  // ----- INSERT -----

  function EvalAll(exprs: seq<Result<Value>>): (r: Result<seq<Value>>)
    ensures r.Ok? ==> |r.value| == |exprs| && forall i :: 0 <= i < |exprs| ==> exprs[i] == Ok(r.value[i])
  {
    if exprs == [] then Ok([])
    else match exprs[0]
      case Err(e) => Err(e)
      case Ok(v) => match EvalAll(exprs[1..]) case Err(e) => Err(e) case Ok(vs) => Ok([v] + vs)
  }

  /** Primary-key checks, column by column: listed, not NULL, and not the id of an existing row. */
  function CheckKey(env: Env, pks: seq<Bytes>, rows: Table, names: seq<Bytes>, values: seq<Value>): Result<()>
    requires |names| == |values|
  {
    if pks == [] then Ok(())
    else match Position(names, pks[0])
      case None => Err(Constraint("PRIMARY KEY column missing", pks[0]))
      case Some(i) =>
        if values[i].Null? then Err(Constraint("NOT NULL PRIMARY KEY", pks[0]))
        else if RowId(env, values[i]) in rows then Err(Constraint("PRIMARY KEY duplicate", pks[0]))
        else CheckKey(env, pks[1..], rows, names, values)
  }

  predicate HoldsEqual(env: Env, cols: Cols, name: Bytes, v: Value) {
    Lookup(cols, name).Some? && SqlEq(env, Text(Lookup(cols, name).value), v) == Some(true)
  }

  /** UNIQUE checks against every row of the table. */
  function CheckUnique(env: Env, columns: seq<ColumnMeta>, rows: Table, names: seq<Bytes>, values: seq<Value>): Result<()>
    requires |names| == |values|
  {
    if columns == [] then Ok(())
    else
      var c := columns[0];
      var at := if c.unique && !c.primaryKey then Position(names, c.name) else None;
      if at.Some? && !values[at.value].Null? &&
         exists id :: id in rows && HoldsEqual(env, rows[id], c.name, values[at.value])
      then Err(Constraint("UNIQUE duplicate", c.name))
      else CheckUnique(env, columns[1..], rows, names, values)
  }

  function EncodeCell(env: Env, columns: seq<ColumnMeta>, name: Bytes, v: Value): Result<Bytes> {
    var meta := FindColumn(columns, name);
    if meta.Some? && meta.value.notNull && v.Null? then Err(Constraint("NOT NULL", name))
    else Ok(CellBytes(env, v))
  }

  function EncodeAll(env: Env, columns: seq<ColumnMeta>, names: seq<Bytes>, values: seq<Value>): (r: Result<Cols>)
    requires |names| == |values|
    ensures r.Ok? ==> |r.value| == |names|
    ensures r.Ok? ==> forall i :: 0 <= i < |names| ==> r.value[i] == (names[i], CellBytes(env, values[i]))
  {
    if names == [] then Ok([])
    else match EncodeCell(env, columns, names[0], values[0])
      case Err(e) => Err(e)
      case Ok(b) => match EncodeAll(env, columns, names[1..], values[1..])
        case Err(e) => Err(e)
        case Ok(cols) => Ok([(names[0], b)] + cols)
  }

  /** All checks on one VALUES row: the id and columns to store, or the error that rejects it. */
  function PrepareInsert(env: Env, schema: TableSchema, rows: Table, names: seq<Bytes>, exprs: seq<Result<Value>>)
    : (r: Result<(Bytes, Cols)>)
    requires names != []
  {
    if |exprs| != |names| then Err(TypeMismatch("INSERT column count mismatch", []))
    else match EvalAll(exprs)
      case Err(e) => Err(e)
      case Ok(values) => match CheckKey(env, schema.primaryKey, rows, names, values)
        case Err(e) => Err(e)
        case Ok(_) => match CheckUnique(env, schema.columns, rows, names, values)
          case Err(e) => Err(e)
          case Ok(_) => match EncodeAll(env, schema.columns, names, values)
            case Err(e) => Err(e)
            case Ok(cols) => Ok((RowId(env, values[0]), cols))
  }

  /** Rows are added one by one; the first rejected row stops the statement and keeps the earlier ones. */
  function InsertAll(env: Env, schema: TableSchema, rows: Table, names: seq<Bytes>, values: seq<seq<Result<Value>>>)
    : (Table, Result<()>)
    requires names != []
    decreases |values|
  {
    if values == [] then (rows, Ok(()))
    else match PrepareInsert(env, schema, rows, names, values[0])
      case Err(e) => (rows, Err(e))
      case Ok((id, cols)) => InsertAll(env, schema, rows[id := cols], names, values[1..])
  }

  // ----- WHERE -----

  function Passes(where: Filter, row: Row): Result<bool> {
    if where.None? then Ok(true) else where.value(row)
  }

  /** Ids whose rows pass the filter, in scan order, or the first evaluation error. */
  function Matching(rows: Table, ids: seq<Bytes>, where: Filter): (r: Result<seq<Bytes>>)
    requires forall i :: 0 <= i < |ids| ==> ids[i] in rows
  {
    if ids == [] then Ok([])
    else
      var n := |ids| - 1;
      match Matching(rows, ids[..n], where)
      case Err(e) => Err(e)
      case Ok(kept) => match Passes(where, ToRow(rows[ids[n]]))
        case Err(e) => Err(e)
        case Ok(keep) => Ok(if keep then kept + [ids[n]] else kept)
  }

  /** An error part-way through the scan is the result of the scan. */
  lemma {:induction false} MatchingStops(rows: Table, ids: seq<Bytes>, where: Filter, i: nat)
    requires forall j :: 0 <= j < |ids| ==> ids[j] in rows
    requires i <= |ids| && Matching(rows, ids[..i], where).Err?
    ensures Matching(rows, ids, where) == Matching(rows, ids[..i], where)
    decreases |ids| - i
  {
    if i == |ids| {
      TakeAll(ids);
    } else {
      TakeStep(ids, i);
      MatchingStops(rows, ids, where, i + 1);
    }
  }

  /** The matched ids are exactly the scanned ids whose rows pass, each as often as it was scanned. */
  lemma {:induction false} MatchingExact(rows: Table, ids: seq<Bytes>, where: Filter)
    requires forall i :: 0 <= i < |ids| ==> ids[i] in rows
    requires Matching(rows, ids, where).Ok?
    ensures var kept := Matching(rows, ids, where).value;
            && (forall id :: id in kept <==> id in ids && id in rows && Passes(where, ToRow(rows[id])) == Ok(true))
            && (Distinct(ids) ==> Distinct(kept))
  {
    if ids != [] {
      var n := |ids| - 1;
      MatchingExact(rows, ids[..n], where);
      TakeStep(ids, n);
      TakeAll(ids);
      assert Distinct(ids) ==> ids[n] !in ids[..n];
    }
  }

  // ----- UPDATE -----

  /** Evaluate and encode every assignment on the row before anything is written. */
  function PrepareUpdate(env: Env, schema: TableSchema, row: Row, sets: seq<Assignment>): (r: Result<Cols>)
    ensures r.Ok? ==> |r.value| == |sets| && forall i :: 0 <= i < |sets| ==> r.value[i].0 == sets[i].column
  {
    if sets == [] then Ok([])
    else match sets[0].expr(row)
      case Err(e) => Err(e)
      case Ok(v) => match EncodeCell(env, schema.columns, sets[0].column, v)
        case Err(e) => Err(e)
        case Ok(b) => match PrepareUpdate(env, schema, row, sets[1..])
          case Err(e) => Err(e)
          case Ok(rest) => Ok([(sets[0].column, b)] + rest)
  }

  function ApplySets(cols: Cols, pending: Cols): Cols
    decreases |pending|
  {
    if pending == [] then cols
    else ApplySets(SetColumn(cols, pending[0].0, pending[0].1), pending[1..])
  }

  function UpdateAll(env: Env, schema: TableSchema, rows: Table, ids: seq<Bytes>, sets: seq<Assignment>)
    : (Table, Result<()>)
    requires forall i :: 0 <= i < |ids| ==> ids[i] in rows
    decreases |ids|
  {
    if ids == [] then (rows, Ok(()))
    else match PrepareUpdate(env, schema, ToRow(rows[ids[0]]), sets)
      case Err(e) => (rows, Err(e))
      case Ok(pending) =>
        UpdateAll(env, schema, rows[ids[0] := ApplySets(rows[ids[0]], pending)], ids[1..], sets)
  }

  // ----- what an assignment list does to a row -----

  /** After `SET`, an assigned column holds its new cell and every other column its old one. */
  lemma {:induction false} ApplySetsReads(cols: Cols, pending: Cols, c: Bytes)
    requires Distinct(Names(pending))
    ensures Lookup(ApplySets(cols, pending), c) == if c in Names(pending) then Lookup(pending, c) else Lookup(cols, c)
    decreases |pending|
  {
    if pending != [] {
      var (name, val) := pending[0];
      assert Names(pending) == [name] + Names(pending[1..]);
      assert Distinct(Names(pending[1..])) by { assert Names(pending[1..]) == Names(pending)[1..]; }
      ApplySetsReads(SetColumn(cols, name, val), pending[1..], c);
      SetColumnReads(cols, name, val, c);
      LookupFound(pending[1..], name);
    }
  }

  lemma {:induction false} ApplySetsDistinct(cols: Cols, pending: Cols)
    requires Distinct(Names(cols))
    ensures Distinct(Names(ApplySets(cols, pending)))
    decreases |pending|
  {
    if pending != [] {
      SetColumnDistinct(cols, pending[0].0, pending[0].1);
      ApplySetsDistinct(SetColumn(cols, pending[0].0, pending[0].1), pending[1..]);
    }
  }

  // ----- well-formed tables: what index keys rest on -----

  /** Row ids hold no zero byte and every row has distinct column names. */
  predicate TableRows(rows: Table) {
    forall id :: id in rows ==> NulFree(id) && Distinct(Names(rows[id]))
  }

  /** Storing a row over an old one leaves no stale entry in these indexes. */
  predicate KeepsEntries(rows: Table, indexed: set<Bytes>, id: Bytes, cols: Cols) {
    forall c :: c in indexed ==> KeepsEntry(rows, id, cols, c)
  }

  predicate KeepsEntry(rows: Table, id: Bytes, cols: Cols, c: Bytes) {
    id in rows ==> EntryOf(rows[id], c, id) <= EntryOf(cols, c, id)
  }

  /** Every row that an INSERT stores has an id without zero bytes, and leaves no stale entry. */
  predicate InsertSafe(env: Env, schema: TableSchema, rows: Table, indexed: set<Bytes>, names: seq<Bytes>, values: seq<seq<Result<Value>>>)
    requires names != []
    decreases |values|
  {
    values == [] ||
    match PrepareInsert(env, schema, rows, names, values[0])
    case Err(_) => true
    case Ok((id, cols)) =>
      && NulFree(id) && KeepsEntries(rows, indexed, id, cols)
      && InsertSafe(env, schema, rows[id := cols], indexed, names, values[1..])
  }

  /** What an INSERT must promise: distinct columns, and safe rows. */
  predicate InsertOk(env: Env, schema: TableSchema, rows: Table, indexed: set<Bytes>, names: seq<Bytes>, values: seq<seq<Result<Value>>>) {
    names != [] ==> Distinct(names) && InsertSafe(env, schema, rows, indexed, names, values)
  }

  /** When the first column is in the primary key an existing id is refused, so the rows are safe in every state. */
  lemma {:induction false} KeyedInsertSafe(env: Env, schema: TableSchema, rows: Table, indexed: set<Bytes>, names: seq<Bytes>, values: seq<seq<Result<Value>>>)
    requires names != [] && Distinct(names) && names[0] in schema.primaryKey && forall i :: 0 <= i < |values| ==> KeyOk(env, values[i])
    ensures InsertSafe(env, schema, rows, indexed, names, values)
    decreases |values|
  {
    if values != [] {
      var p := PrepareInsert(env, schema, rows, names, values[0]);
      if p.Ok? {
        PrepareInsertFresh(env, schema, rows, names, values[0]);
        KeyedInsertSafe(env, schema, rows[p.value.0 := p.value.1], indexed, names, values[1..]);
      }
    }
  }

  lemma PreparedNames(env: Env, schema: TableSchema, rows: Table, names: seq<Bytes>, exprs: seq<Result<Value>>)
    requires names != [] && PrepareInsert(env, schema, rows, names, exprs).Ok?
    ensures Names(PrepareInsert(env, schema, rows, names, exprs).value.1) == names
  {
  }

  predicate KeyOk(env: Env, exprs: seq<Result<Value>>) {
    exprs != [] && exprs[0].Ok? ==> NulFree(RowId(env, exprs[0].value))
  }

  /** What an UPDATE must promise: no column is assigned twice. */
  predicate SetsOk(sets: seq<Assignment>) {
    forall i, j :: 0 <= i < j < |sets| ==> sets[i].column != sets[j].column
  }

  lemma {:induction false} CheckKeyFresh(env: Env, pks: seq<Bytes>, rows: Table, names: seq<Bytes>, values: seq<Value>)
    requires |names| == |values| && names != [] && names[0] in pks && CheckKey(env, pks, rows, names, values).Ok?
    ensures RowId(env, values[0]) !in rows && !values[0].Null?
  {
    assert Position(names, names[0]) == Some(0);
    if pks[0] != names[0] { CheckKeyFresh(env, pks[1..], rows, names, values); }
  }

  lemma PrepareInsertFresh(env: Env, schema: TableSchema, rows: Table, names: seq<Bytes>, exprs: seq<Result<Value>>)
    requires names != [] && Distinct(names) && names[0] in schema.primaryKey && KeyOk(env, exprs)
    requires PrepareInsert(env, schema, rows, names, exprs).Ok?
    ensures var (id, cols) := PrepareInsert(env, schema, rows, names, exprs).value;
            NulFree(id) && id !in rows && Distinct(Names(cols))
  {
    var (id, cols) := PrepareInsert(env, schema, rows, names, exprs).value;
    assert Names(cols) == names;
    CheckKeyFresh(env, schema.primaryKey, rows, names, EvalAll(exprs).value);
  }

  lemma PrepareUpdateDistinct(env: Env, schema: TableSchema, row: Row, sets: seq<Assignment>)
    requires SetsOk(sets) && PrepareUpdate(env, schema, row, sets).Ok?
    ensures Distinct(Names(PrepareUpdate(env, schema, row, sets).value))
  {
  }

  // ----- index contents -----

  /** The (value, row id) entry of one row in the index of column `c`. */
  function EntryOf(cols: Cols, c: Bytes, id: Bytes): set<Bytes> {
    if Lookup(cols, c).Some? then {Seg(Lookup(cols, c).value, id)} else {}
  }

  /** What the index of column `c` must hold: one entry per row that has the column, and no other. */
  function IndexOf(rows: Table, c: Bytes): set<Bytes> {
    set id, e | id in rows && e in EntryOf(rows[id], c, id) :: e
  }

  lemma IndexAdd(rows: Table, id: Bytes, cols: Cols, c: Bytes)
    requires id !in rows
    ensures IndexOf(rows[id := cols], c) == IndexOf(rows, c) + EntryOf(cols, c, id)
  {
    var after := rows[id := cols];
    forall e ensures e in IndexOf(after, c) <==> e in IndexOf(rows, c) || e in EntryOf(cols, c, id) {
      if e in IndexOf(rows, c) {
        var x :| x in rows && e in EntryOf(rows[x], c, x);
        assert x in after && e in EntryOf(after[x], c, x);
      }
      if e in EntryOf(cols, c, id) {
        assert id in after && e in EntryOf(after[id], c, id);
      }
    }
  }

  lemma IndexRemove(rows: Table, id: Bytes, c: Bytes)
    requires id in rows && TableRows(rows)
    ensures IndexOf(rows - {id}, c) == IndexOf(rows, c) - EntryOf(rows[id], c, id)
  {
    var after := rows - {id};
    forall e ensures e in IndexOf(after, c) <==> e in IndexOf(rows, c) && e !in EntryOf(rows[id], c, id) {
      if e in IndexOf(after, c) {
        var x :| x in after && e in EntryOf(after[x], c, x);
        assert x in rows && e in EntryOf(rows[x], c, x);
        if e in EntryOf(rows[id], c, id) {
          SegTailInjective(Lookup(rows[x], c).value, x, Lookup(rows[id], c).value, id);
        }
      }
      if e in IndexOf(rows, c) && e !in EntryOf(rows[id], c, id) {
        var x :| x in rows && e in EntryOf(rows[x], c, x);
        assert x in after && e in EntryOf(after[x], c, x);
      }
    }
  }

  lemma IndexReplace(rows: Table, id: Bytes, cols: Cols, c: Bytes)
    requires id in rows && TableRows(rows)
    ensures IndexOf(rows[id := cols], c) == IndexOf(rows, c) - EntryOf(rows[id], c, id) + EntryOf(cols, c, id)
  {
    assert rows[id := cols] == (rows - {id})[id := cols];
    IndexRemove(rows, id, c);
    IndexAdd(rows - {id}, id, cols, c);
  }

  /**
   * Storing a row over an existing one without removing the old entry, as an insert without the key
   * check would, keeps the index exact only when the old entry is also the new one.
   */
  lemma OverwriteExact(rows: Table, id: Bytes, cols: Cols, c: Bytes)
    requires id in rows && TableRows(rows)
    ensures IndexOf(rows, c) + EntryOf(cols, c, id) == IndexOf(rows[id := cols], c) <==> EntryOf(rows[id], c, id) <= EntryOf(cols, c, id)
  {
    IndexReplace(rows, id, cols, c);
    var before, stale, added := IndexOf(rows, c), EntryOf(rows[id], c, id), EntryOf(cols, c, id);
    assert stale <= before;
    if !(stale <= added) {
      var e :| e in stale && e !in added;
      assert e in before + added && e !in before - stale + added;
    }
  }

  /** Without a primary key nothing is checked: the columns are stored under the first value, whether or not it is taken. */
  lemma UncheckedInsert(env: Env, rows: Table, n1: Bytes, n2: Bytes, v1: Bytes, v2: Bytes)
    ensures PrepareInsert(env, TableSchema([], []), rows, [n1, n2], [Ok(Text(v1)), Ok(Text(v2))]) == Ok((v1, [(n1, v1), (n2, v2)]))
  {
    var names, exprs, values := [n1, n2], [Ok(Text(v1)), Ok(Text(v2))], [Text(v1), Text(v2)];
    var evaluated := EvalAll(exprs);
    assert EvalAll(exprs[1..][1..]) == Ok([]);
    assert EvalAll(exprs[1..]).Ok?;
    SameElements(evaluated.value, values);
    var encoded := EncodeAll(env, [], names, values);
    assert EncodeAll(env, [], names[1..][1..], values[1..][1..]) == Ok([]);
    assert EncodeAll(env, [], names[1..], values[1..]).Ok?;
    SameElements(encoded.value, [(n1, v1), (n2, v2)]);
  }

  /** `INSERT (id, c) VALUES (1, 'y')` over the row `id = 1, c = 'x'` of a table without primary key: the index keeps the entry of x. */
  lemma StaleEntry(env: Env)
    ensures var id, n, c: Bytes := [49], [105, 100], [99];
            var rows: Table, cols: Cols := map[id := [(n, id), (c, [120])]], [(n, id), (c, [121])];
            && PrepareInsert(env, TableSchema([], []), rows, [n, c], [Ok(Text(id)), Ok(Text([121]))]) == Ok((id, cols))
            && Seg([120], id) in IndexOf(rows, c) + EntryOf(cols, c, id) && Seg([120], id) !in IndexOf(rows[id := cols], c)
  {
    var id, n, c: Bytes := [49], [105, 100], [99];
    var cols: Cols, later: Cols := [(n, id), (c, [120])], [(n, id), (c, [121])];
    UncheckedInsert(env, map[id := cols], n, c, id, [121]);
    assert n[0] != c[0];
    assert cols[1..] == [(c, [120])] && later[1..] == [(c, [121])];
    assert Lookup(cols, c) == Some([120]) && Lookup(later, c) == Some([121]);
    IndexAdd(map[], id, cols, c);
    IndexAdd(map[], id, later, c);
    assert map[id := cols][id := later] == map[][id := later];
    assert Seg([120], id)[0] != Seg([121], id)[0];
  }
}
