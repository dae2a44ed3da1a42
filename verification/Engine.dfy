/** The local engine: statements executed one after another on one store. */
module Engine {
  import opened ByteStrings
  import opened Values
  import opened Store
  import opened KeySpace
  import opened RowStore
  import opened IndexState
  import opened SecondaryIndex
  import opened Dml

  type Schema = map<Bytes, TableSchema>

  function SchemaOf(schema: Schema, t: Bytes): TableSchema {
    if t in schema then schema[t] else TableSchema([], [])
  }

  /** The column list of an INSERT: as written, or every column of the table. */
  function InsertNames(schema: Schema, t: Bytes, columns: Option<seq<Bytes>>): Option<seq<Bytes>> {
    if columns.Some? then columns
    else if t in schema then Some(ColumnNames(schema[t].columns))
    else None
  }

  /** With no columns at all there is no first value to make a row id of. */
  function EmptyListResult(values: seq<seq<Result<Value>>>): Result<nat> {
    if values == [] then Ok(0)
    else if values[0] != [] then Err(TypeMismatch("INSERT column count mismatch", []))
    else Err(Panic)
  }

  function InsertEffect(env: Env, schema: Schema, t: Bytes, rows: Table, columns: Option<seq<Bytes>>, values: seq<seq<Result<Value>>>)
    : (Table, Result<nat>)
  {
    var names := InsertNames(schema, t, columns);
    if names.None? then (rows, Err(UnknownColumn(t)))
    else if names.value == [] then (rows, EmptyListResult(values))
    else
      var (after, r) := InsertAll(env, SchemaOf(schema, t), rows, names.value, values);
      (after, if r.Err? then Err(r.error) else Ok(|values|))
  }

  function UpdateEffect(env: Env, schema: Schema, t: Bytes, rows: Table, sets: seq<Assignment>, where: Filter)
    : (Table, Result<nat>)
  {
    var ids := Matching(rows, Ids(rows), where);
    if ids.Err? then (rows, Err(ids.error))
    else
      MatchedOk(rows, where);
      var (after, r) := UpdateAll(env, SchemaOf(schema, t), rows, ids.value, sets);
      (after, if r.Err? then Err(r.error) else Ok(|ids.value|))
  }

  function DeleteEffect(rows: Table, where: Filter): (Table, Result<nat>) {
    var ids := Matching(rows, Ids(rows), where);
    if ids.Err? then (rows, Err(ids.error))
    else (rows - (set id | id in ids.value), Ok(|ids.value|))
  }

  /** What a statement does to table `t`, and what it returns when it is on that table. */
  function Effect(env: Env, schema: Schema, t: Bytes, rows: Table, s: Statement): (Table, Result<nat>) {
    if s.table != t then (rows, Ok(0))
    else match s
      case CreateIndex(_, _) => (rows, Ok(0))
      case Insert(_, columns, values) => InsertEffect(env, schema, t, rows, columns, values)
      case Update(_, sets, where) => UpdateEffect(env, schema, t, rows, sets, where)
      case Delete(_, where) => DeleteEffect(rows, where)
  }

  function RunOn(env: Env, schema: Schema, t: Bytes, rows: Table, stmts: seq<Statement>): Table {
    if stmts == [] then rows
    else
      var n := |stmts| - 1;
      Effect(env, schema, t, RunOn(env, schema, t, rows, stmts[..n]), stmts[n]).0
  }

  method ExecuteInsert(env: Env, schema: Schema, tree: Tree, t: Bytes, columns: Option<seq<Bytes>>, values: seq<seq<Result<Value>>>)
    returns (after: Tree, r: Result<nat>)
    requires SafeTable(t) && TableOk(tree, t)
    requires var names := InsertNames(schema, t, columns);
             names.Some? ==> InsertOk(env, SchemaOf(schema, t), Rows(tree, t), Indexed(tree, t), names.value, values)
    ensures TableOk(after, t) && OnlyTable(tree, after, t) && Indexed(after, t) == Indexed(tree, t)
    ensures (Rows(after, t), r) == InsertEffect(env, schema, t, Rows(tree, t), columns, values)
  {
    var names := InsertNames(schema, t, columns);
    if names.None? { return tree, Err(UnknownColumn(t)); }
    if names.value == [] { return tree, EmptyListResult(values); }
    var done;
    after, done := InsertRows(env, SchemaOf(schema, t), tree, t, names.value, values);
    r := if done.Err? then Err(done.error) else Ok(|values|);
  }

  method ExecuteUpdate(env: Env, schema: Schema, tree: Tree, t: Bytes, sets: seq<Assignment>, where: Filter)
    returns (after: Tree, r: Result<nat>)
    requires SafeTable(t) && TableOk(tree, t) && SetsOk(sets)
    ensures TableOk(after, t) && OnlyTable(tree, after, t) && Indexed(after, t) == Indexed(tree, t)
    ensures (Rows(after, t), r) == UpdateEffect(env, schema, t, Rows(tree, t), sets, where)
  {
    var ids := MatchRows(tree, t, where);
    if ids.Err? { return tree, Err(ids.error); }
    MatchedOk(Rows(tree, t), where);
    var done;
    after, done := UpdateRows(env, SchemaOf(schema, t), tree, t, ids.value, sets);
    r := if done.Err? then Err(done.error) else Ok(|ids.value|);
  }

  method ExecuteDelete(tree: Tree, t: Bytes, where: Filter)
    returns (after: Tree, r: Result<nat>)
    requires SafeTable(t) && TableOk(tree, t)
    ensures TableOk(after, t) && OnlyTable(tree, after, t) && Indexed(after, t) == Indexed(tree, t)
    ensures (Rows(after, t), r) == DeleteEffect(Rows(tree, t), where)
  {
    var ids := MatchRows(tree, t, where);
    if ids.Err? { return tree, Err(ids.error); }
    MatchedOk(Rows(tree, t), where);
    after := DeleteRows(tree, t, ids.value);
    r := Ok(|ids.value|);
  }

  /** What the engine asks of a statement on a table with these rows and indexed columns. */
  predicate StatementOk(env: Env, schema: Schema, rows: Table, indexed: set<Bytes>, s: Statement) {
    SafeTable(s.table) &&
    match s
    case CreateIndex(t, c) => NulFree(c)
    case Insert(t, columns, values) =>
      var names := InsertNames(schema, t, columns);
      names.Some? ==> InsertOk(env, SchemaOf(schema, t), rows, indexed, names.value, values)
    case Update(t, sets, _) => SetsOk(sets)
    case Delete(_, _) => true
  }

  /** The indexed columns of a table after some statements. */
  function IndexedAfter(t: Bytes, indexed: set<Bytes>, stmts: seq<Statement>): set<Bytes> {
    if stmts == [] then indexed
    else
      var n := |stmts| - 1;
      IndexedAfter(t, indexed, stmts[..n]) + if stmts[n].CreateIndex? && stmts[n].table == t then {stmts[n].column} else {}
  }

  /** Each statement asks nothing that the earlier ones, by their meaning, do not leave it. */
  predicate RunOk(env: Env, schema: Schema, tree: Tree, stmts: seq<Statement>) {
    forall i :: 0 <= i < |stmts| ==> StepOk(env, schema, tree, stmts[..i], stmts[i])
  }

  predicate StepOk(env: Env, schema: Schema, tree: Tree, earlier: seq<Statement>, s: Statement) {
    var t := s.table;
    StatementOk(env, schema, RunOn(env, schema, t, Rows(tree, t), earlier), IndexedAfter(t, Indexed(tree, t), earlier), s)
  }

  /** Every index of every table holds exactly the (value, row id) pairs of the table. */
  ghost predicate AllExact(tree: Tree) {
    forall t {:trigger TableOk(tree, t)} :: SafeTable(t) ==> TableOk(tree, t)
  }

  class LocalEngine {
    const env: Env
    const schema: Schema
    var tree: Tree

    ghost predicate Valid()
      reads this
    {
      AllExact(tree)
    }

    constructor (env: Env, schema: Schema)
      ensures Valid() && tree == map[]
      ensures this.env == env && this.schema == schema
    {
      this.env := env;
      this.schema := schema;
      this.tree := map[];
      new;
      forall t | SafeTable(t) ensures TableOk(tree, t) { EmptyTableOk(t); }
    }

    /** The statement on its own table, as one change of the store. */
    method Apply(s: Statement) returns (after: Tree, r: Result<nat>)
      requires Valid() && StatementOk(env, schema, Rows(tree, s.table), Indexed(tree, s.table), s)
      ensures TableOk(after, s.table) && OnlyTable(tree, after, s.table)
      ensures (Rows(after, s.table), r) == Effect(env, schema, s.table, Rows(tree, s.table), s)
      ensures Indexed(after, s.table) == Indexed(tree, s.table) + if s.CreateIndex? then {s.column} else {}
    {
      var t := s.table;
      assert TableOk(tree, t);
      match s
      case CreateIndex(_, c) =>
        after := BuildIndex(tree, t, c);
        r := Ok(0);
      case Insert(_, columns, values) =>
        after, r := ExecuteInsert(env, schema, tree, t, columns, values);
      case Update(_, sets, where) =>
        after, r := ExecuteUpdate(env, schema, tree, t, sets, where);
      case Delete(_, where) =>
        after, r := ExecuteDelete(tree, t, where);
    }

    method Execute(s: Statement) returns (r: Result<nat>)
      requires Valid() && StatementOk(env, schema, Rows(tree, s.table), Indexed(tree, s.table), s)
      modifies this
      ensures Valid() && Stepped(env, schema, old(tree), tree, s)
      ensures r == Effect(env, schema, s.table, old(Rows(tree, s.table)), s).1
    {
      ghost var before := tree;
      var after;
      after, r := Apply(s);
      StepEverywhere(env, schema, before, after, s);
      tree := after;
    }

    /**
     * Every run of statements, including statements stopped part-way by a rejected row, keeps every
     * index exact and leaves each table as the statements' meaning says.
     */
    method Run(stmts: seq<Statement>)
      requires Valid() && RunOk(env, schema, tree, stmts)
      modifies this
      ensures Valid() && Reached(env, schema, old(tree), tree, stmts)
    {
      ghost var start := tree;
      ReachedStart(env, schema, start);
      for i := 0 to |stmts|
        invariant Valid() && Reached(env, schema, start, tree, stmts[..i])
      {
        ghost var before := tree;
        assert StepOk(env, schema, start, stmts[..i], stmts[i]);
        StepReady(env, schema, start, tree, stmts[..i], stmts[i]);
        var _ := Execute(stmts[i]);
        TakeStep(stmts, i);
        ReachedStep(env, schema, start, before, tree, stmts[..i], stmts[i]);
      }
      TakeAll(stmts);
    }
  }

  /** What a statement leaves of one table: the rows of its meaning, and the indexed columns. */
  ghost predicate SteppedOn(env: Env, schema: Schema, before: Tree, after: Tree, s: Statement, t: Bytes) {
    && Rows(after, t) == Effect(env, schema, t, Rows(before, t), s).0
    && Indexed(after, t) == Indexed(before, t) + if s.CreateIndex? && s.table == t then {s.column} else {}
  }

  ghost predicate Stepped(env: Env, schema: Schema, before: Tree, after: Tree, s: Statement) {
    forall t {:trigger SteppedOn(env, schema, before, after, s, t)} :: SafeTable(t) ==> SteppedOn(env, schema, before, after, s, t)
  }

  /** Every table is as the statements mean it, with the indexes they created. */
  ghost predicate Reached(env: Env, schema: Schema, start: Tree, now: Tree, stmts: seq<Statement>) {
    forall t {:trigger ReachedOn(env, schema, start, now, stmts, t)} :: SafeTable(t) ==> ReachedOn(env, schema, start, now, stmts, t)
  }

  ghost predicate ReachedOn(env: Env, schema: Schema, start: Tree, now: Tree, stmts: seq<Statement>, t: Bytes) {
    Rows(now, t) == RunOn(env, schema, t, Rows(start, t), stmts) && Indexed(now, t) == IndexedAfter(t, Indexed(start, t), stmts)
  }

  /** A change of one table is a step of all of them. */
  lemma StepEverywhere(env: Env, schema: Schema, before: Tree, after: Tree, s: Statement)
    requires AllExact(before) && SafeTable(s.table) && OnlyTable(before, after, s.table)
    requires TableOk(after, s.table) && SteppedOn(env, schema, before, after, s, s.table)
    ensures AllExact(after) && Stepped(env, schema, before, after, s)
  {
    forall t | SafeTable(t) ensures TableOk(after, t) && SteppedOn(env, schema, before, after, s, t) {
      assert TableOk(before, t);
      if t != s.table { OtherTableKept(before, after, s.table, t); }
    }
  }

  lemma ReachedStart(env: Env, schema: Schema, start: Tree)
    ensures Reached(env, schema, start, start, [])
  {
    forall t | SafeTable(t) ensures ReachedOn(env, schema, start, start, [], t) { }
  }

  lemma StepReady(env: Env, schema: Schema, start: Tree, now: Tree, earlier: seq<Statement>, s: Statement)
    requires Reached(env, schema, start, now, earlier) && StepOk(env, schema, start, earlier, s)
    ensures StatementOk(env, schema, Rows(now, s.table), Indexed(now, s.table), s)
  {
    assert SafeTable(s.table);
    assert ReachedOn(env, schema, start, now, earlier, s.table);
  }

  lemma ReachedStep(env: Env, schema: Schema, start: Tree, before: Tree, after: Tree, earlier: seq<Statement>, s: Statement)
    requires Reached(env, schema, start, before, earlier) && Stepped(env, schema, before, after, s)
    ensures Reached(env, schema, start, after, earlier + [s])
  {
    assert (earlier + [s])[..|earlier|] == earlier;
    forall t | SafeTable(t) ensures ReachedOn(env, schema, start, after, earlier + [s], t) {
      assert ReachedOn(env, schema, start, before, earlier, t) && SteppedOn(env, schema, before, after, s, t);
    }
  }

  lemma MatchedOk(rows: Table, where: Filter)
    requires Matching(rows, Ids(rows), where).Ok?
    ensures AllIn(Matching(rows, Ids(rows), where).value, rows) && Distinct(Matching(rows, Ids(rows), where).value)
  {
    var ids := Matching(rows, Ids(rows), where).value;
    SortedAscending(rows.Keys);
    MatchingExact(rows, Ids(rows), where);
    assert forall i :: 0 <= i < |ids| ==> ids[i] in ids;
  }
}
