/** Column pruning: scans load only the columns that the plan above them mentions. */
module Pruning {
  import opened ByteStrings
  import opened Values
  import opened Columns
  import opened Expressions
  import opened Aggregation
  import opened SortOrder
  import Sorting
  import TableScan

  datatype Item = Item(expr: Expr, alias: Option<Bytes>)

  datatype Plan =
    | Scan(table: Bytes, prefix: Bytes, columns: Option<seq<Bytes>>)
    | Filter(input: Plan, pred: Expr)
    | Project(input: Plan, items: seq<Item>)
    | Aggregated(input: Plan, groupBy: seq<Bytes>, aggs: seq<Agg>)
    | Sorted(input: Plan, keys: SortKeys)
    | Limit(input: Plan, limit: nat, offset: nat)
    | LoopJoin(left: Plan, right: Plan, on: Expr)

  /** Packed rows by table, and the order in which the aggregate's hash map yields its groups. */
  datatype Db = Db(env: Env, tables: map<Bytes, seq<Cols>>, emit: (seq<Bytes>, seq<Agg>, Groups) -> seq<Row>)

  // ----- execution -----

  /** Rows an operator yields before it ends or fails. */
  datatype Stream = Stream(rows: seq<Row>, error: Option<Error>)

  function BareNames(columns: seq<Bytes>): (r: seq<Bytes>)
    ensures |r| == |columns| && forall i :: 0 <= i < |r| ==> r[i] == Bare(columns[i])
  {
    if columns == [] then [] else [Bare(columns[0])] + BareNames(columns[1..])
  }

  function Prefixed(prefix: Bytes, row: Row): Row {
    if prefix == [] then row else PrefixAll(prefix, row)
  }

  function PrefixAll(prefix: Bytes, row: Row): Row {
    if row == [] then [] else [(Qualify(prefix, row[0].0), row[0].1)] + PrefixAll(prefix, row[1..])
  }

  function LoadRow(prefix: Bytes, columns: Option<seq<Bytes>>, cols: Cols): Row {
    Prefixed(prefix, TableScan.DecodePacked(cols, if columns.Some? then Some(BareNames(columns.value)) else None))
  }

  function LoadRows(prefix: Bytes, columns: Option<seq<Bytes>>, table: seq<Cols>): seq<Row> {
    if table == [] then [] else LoadRows(prefix, columns, table[..|table| - 1]) + [LoadRow(prefix, columns, table[|table| - 1])]
  }

  /** The empty table name stands for a single empty row. */
  function ScanRows(db: Db, table: Bytes, prefix: Bytes, columns: Option<seq<Bytes>>): seq<Row> {
    if table == [] then [[]] else if table in db.tables then LoadRows(prefix, columns, db.tables[table]) else []
  }

  function ItemName(item: Item): Bytes {
    if item.alias.Some? then item.alias.value else if item.expr.Column? then item.expr.column else [99, 111, 108]
  }

  function ProjectRow(env: Env, items: seq<Item>, row: Row): Result<Row> {
    if items == [] then Ok([])
    else match Eval(env, items[0].expr, row)
      case Err(e) => Err(e)
      case Ok(v) => match ProjectRow(env, items[1..], row)
        case Err(e) => Err(e)
        case Ok(rest) => Ok([(ItemName(items[0]), v)] + rest)
  }

  /** Operators that take one row at a time. */
  datatype RowOp = Keeping(pred: Expr) | Projecting(items: seq<Item>)

  function OnRow(env: Env, op: RowOp, row: Row): Result<seq<Row>> {
    match op
    case Keeping(pred) => (match EvalPredicate(env, pred, row) case Err(e) => Err(e) case Ok(keep) => Ok(if keep then [row] else []))
    case Projecting(items) => (match ProjectRow(env, items, row) case Err(e) => Err(e) case Ok(out) => Ok([out]))
  }

  /** Rows are pulled one by one; the first error ends the stream. */
  function Through(env: Env, op: RowOp, rows: seq<Row>): Stream {
    if rows == [] then Stream([], None)
    else
      var n := |rows| - 1;
      var before := Through(env, op, rows[..n]);
      if before.error.Some? then before
      else match OnRow(env, op, rows[n])
        case Err(e) => Stream(before.rows, Some(e))
        case Ok(out) => Stream(before.rows + out, None)
  }

  function Pull(env: Env, op: RowOp, input: Stream): Stream {
    var s := Through(env, op, input.rows);
    if s.error.Some? then s else Stream(s.rows, input.error)
  }

  /** Operators that need all rows fail when they are built. */
  function Materialize(r: Result<Stream>): Result<seq<Row>> {
    match r
    case Err(e) => Err(e)
    case Ok(s) => if s.error.Some? then Err(s.error.value) else Ok(s.rows)
  }

  /** The offset is skipped when the operator is built; after `limit` rows nothing more is pulled. */
  function Limited(s: Stream, limit: nat, offset: nat): Result<Stream> {
    if |s.rows| < offset then (if s.error.Some? then Err(s.error.value) else Ok(Stream([], None)))
    else
      var rest := s.rows[offset..];
      Ok(if limit <= |rest| then Stream(rest[..limit], None) else Stream(rest, s.error))
  }

  function PairsWith(l: Row, right: seq<Row>): seq<Row> {
    if right == [] then [] else PairsWith(l, right[..|right| - 1]) + [l + right[|right| - 1]]
  }

  function Pairs(left: seq<Row>, right: seq<Row>): seq<Row> {
    if left == [] then [] else Pairs(left[..|left| - 1], right) + PairsWith(left[|left| - 1], right)
  }

  function Exec(db: Db, p: Plan): Result<Stream> {
    match p
    case Scan(table, prefix, columns) => Ok(Stream(ScanRows(db, table, prefix, columns), None))
    case Filter(input, pred) => (match Exec(db, input) case Err(e) => Err(e) case Ok(s) => Ok(Pull(db.env, Keeping(pred), s)))
    case Project(input, items) => (match Exec(db, input) case Err(e) => Err(e) case Ok(s) => Ok(Pull(db.env, Projecting(items), s)))
    case Aggregated(input, groupBy, aggs) => (
      match Materialize(Exec(db, input))
      case Err(e) => Err(e)
      case Ok(rows) => match Aggregate(db.env, rows, None, groupBy, aggs)
        case Err(e) => Err(e)
        case Ok(groups) => Ok(Stream(db.emit(groupBy, aggs, groups), None)))
    case Sorted(input, keys) => (
      match Materialize(Exec(db, input))
      case Err(e) => Err(e)
      case Ok(rows) => Ok(Stream(Sorting.Sort(rows, RowOrder(db.env, keys)), None)))
    case Limit(input, limit, offset) => (match Exec(db, input) case Err(e) => Err(e) case Ok(s) => Limited(s, limit, offset))
    case LoopJoin(left, right, on) => (
      match Materialize(Exec(db, left))
      case Err(e) => Err(e)
      case Ok(ls) => match Materialize(Exec(db, right))
        case Err(e) => Err(e)
        case Ok(rs) => Ok(Through(db.env, Keeping(on), Pairs(ls, rs))))
  }

  // ----- which columns the planner collects -----

  function ColumnsIn(e: Expr): seq<Bytes>
    decreases e, 1
  {
    match e
    case Column(t, c) => [ColumnName(t, c)]
    case Unary(_, x) => ColumnsIn(x)
    case IsNull(x, _) => ColumnsIn(x)
    case Cast(x, _) => ColumnsIn(x)
    case Binary(_, l, r) => ColumnsIn(l) + ColumnsIn(r)
    case Paren(x) => ColumnsIn(x)
    case Function(_, args) => ColumnsInAll(args)
    case _ => []
  }

  function ColumnsInAll(es: seq<Expr>): seq<Bytes>
    decreases es, 0
  {
    if es == [] then [] else ColumnsIn(es[0]) + ColumnsInAll(es[1..])
  }

  function ItemColumns(items: seq<Item>): seq<Bytes> {
    if items == [] then [] else ItemColumns(items[..|items| - 1]) + ColumnsIn(items[|items| - 1].expr)
  }

  /** Sorted, without repetitions. */
  function Dedup(columns: seq<Bytes>): (r: seq<Bytes>)
    ensures forall c :: c in r <==> c in columns
  {
    SortedKeys(set c | c in columns)
  }

  function OrNone(columns: Option<seq<Bytes>>): seq<Bytes> {
    if columns.Some? then columns.value else []
  }

  function SomeUnlessEmpty(columns: seq<Bytes>): Option<seq<Bytes>> {
    if columns == [] then None else Some(columns)
  }

  function Collect(p: Plan): Option<seq<Bytes>> {
    match p
    case Scan(_, _, _) => None
    case Filter(input, pred) => Some(Dedup(OrNone(Collect(input)) + ColumnsIn(pred)))
    case Project(input, items) => SomeUnlessEmpty(Dedup(OrNone(Collect(input)) + ItemColumns(items)))
    case Aggregated(input, groupBy, aggs) => SomeUnlessEmpty(Dedup(OrNone(Collect(input)) + (groupBy + AggColumns(aggs))))
    case Sorted(input, keys) => Some(Dedup(OrNone(Collect(input)) + Names(keys)))
    case Limit(input, _, _) => Collect(input)
    case LoopJoin(left, right, on) => Some(Dedup(OrNone(Collect(left)) + OrNone(Collect(right)) + ColumnsIn(on)))
  }

  function Apply(p: Plan, columns: Option<seq<Bytes>>): Plan {
    match p
    case Scan(table, prefix, _) => Scan(table, prefix, columns)
    case Filter(input, pred) => Filter(Apply(input, columns), pred)
    case Project(input, items) => Project(Apply(input, columns), items)
    case Aggregated(input, groupBy, aggs) => Aggregated(Apply(input, columns), groupBy, aggs)
    case Sorted(input, keys) => Sorted(Apply(input, columns), keys)
    case Limit(input, limit, offset) => Limit(Apply(input, columns), limit, offset)
    case LoopJoin(left, right, on) => LoopJoin(Apply(left, columns), Apply(right, columns), on)
  }

  function Pushdown(p: Plan): Plan {
    Apply(p, Collect(p))
  }

  // ----- plans as the optimiser builds them -----

  /** No scan is pruned yet. */
  predicate Unpruned(p: Plan) {
    match p
    case Scan(_, _, columns) => columns.None?
    case LoopJoin(left, right, _) => Unpruned(left) && Unpruned(right)
    case _ => Unpruned(p.input)
  }

  /** A projection or aggregate stands above every scan. */
  predicate Projects(p: Plan) {
    match p
    case Project(_, _) => true
    case Aggregated(_, _, _) => true
    case Scan(_, _, _) => false
    case LoopJoin(_, _, _) => false
    case _ => Projects(p.input)
  }

  /** Joins take unprojected inputs. */
  predicate JoinsLow(p: Plan) {
    match p
    case Scan(_, _, _) => true
    case LoopJoin(left, right, _) => JoinsLow(left) && JoinsLow(right) && !Projects(left) && !Projects(right)
    case _ => JoinsLow(p.input)
  }

  /** Every column that executing the plan can look at. */
  function Reads(p: Plan): seq<Bytes> {
    match p
    case Scan(_, _, _) => []
    case Filter(input, pred) => Reads(input) + AllColumns(pred)
    case Project(input, items) => Reads(input) + ItemReads(items)
    case Aggregated(input, groupBy, aggs) => Reads(input) + ReadColumns(None, groupBy, aggs)
    case Sorted(input, keys) => Reads(input) + Names(keys)
    case Limit(input, _, _) => Reads(input)
    case LoopJoin(left, right, on) => Reads(left) + Reads(right) + AllColumns(on)
  }

  function ItemReads(items: seq<Item>): seq<Bytes> {
    if items == [] then [] else ItemReads(items[..|items| - 1]) + AllColumns(items[|items| - 1].expr)
  }

  function Bares(columns: seq<Bytes>): set<Bytes> {
    set i | 0 <= i < |columns| :: Bare(columns[i])
  }

  predicate DotFree(db: Db) {
    forall t, i, j :: t in db.tables && 0 <= i < |db.tables[t]| && 0 <= j < |db.tables[t][i]| ==> !Dotted(db.tables[t][i][j].0)
  }

  // ----- a pruned scan is a trimmed scan -----

  lemma {:induction false} PrefixKeep(prefix: Bytes, row: Row, bares: set<Bytes>)
    ensures PrefixAll(prefix, KeepBare(row, bares)) == KeepBare(PrefixAll(prefix, row), bares)
  {
    if row != [] {
      BareAfterDot(prefix, row[0].0);
      PrefixKeep(prefix, row[1..], bares);
      var full := PrefixAll(prefix, row);
      assert full[1..] == PrefixAll(prefix, row[1..]);
      if Bare(row[0].0) in bares {
        var kept := KeepBare(row, bares);
        assert kept[0] == row[0] && kept[1..] == KeepBare(row[1..], bares);
      }
    }
  }

  lemma {:induction false} DecodeKeep(cols: Cols, columns: seq<Bytes>)
    requires forall j :: 0 <= j < |cols| ==> !Dotted(cols[j].0)
    ensures TableScan.DecodePacked(cols, Some(BareNames(columns))) == KeepBare(ToRow(cols), Bares(columns))
  {
    if cols != [] {
      DecodeKeep(cols[1..], columns);
      BareNamesAre(columns, cols[0].0);
      assert ToRow(cols)[0] == (cols[0].0, Text(cols[0].1)) && ToRow(cols)[1..] == ToRow(cols[1..]);
    }
  }

  lemma BareNamesAre(columns: seq<Bytes>, c: Bytes)
    ensures c in BareNames(columns) <==> c in Bares(columns)
  {
    if c in Bares(columns) {
      var i :| 0 <= i < |columns| && Bare(columns[i]) == c;
      assert BareNames(columns)[i] == c;
    }
  }

  lemma LoadKeep(prefix: Bytes, columns: seq<Bytes>, cols: Cols)
    requires forall j :: 0 <= j < |cols| ==> !Dotted(cols[j].0)
    ensures LoadRow(prefix, Some(columns), cols) == KeepBare(LoadRow(prefix, None, cols), Bares(columns))
  {
    TableScan.DecodeAll(cols);
    DecodeKeep(cols, columns);
    PrefixKeep(prefix, ToRow(cols), Bares(columns));
  }

  lemma KeepAllAppend(a: seq<Row>, b: seq<Row>, bares: set<Bytes>)
    ensures KeepAll(a + b, bares) == KeepAll(a, bares) + KeepAll(b, bares)
  {
    SameElements(KeepAll(a + b, bares), KeepAll(a, bares) + KeepAll(b, bares));
  }

  lemma KeepAllSlice(rows: seq<Row>, i: nat, j: nat, bares: set<Bytes>)
    requires i <= j <= |rows|
    ensures KeepAll(rows[i..j], bares) == KeepAll(rows, bares)[i..j]
  {
    SameElements(KeepAll(rows[i..j], bares), KeepAll(rows, bares)[i..j]);
  }

  lemma {:induction false} LoadAllKeep(prefix: Bytes, columns: seq<Bytes>, table: seq<Cols>)
    requires forall i, j :: 0 <= i < |table| && 0 <= j < |table[i]| ==> !Dotted(table[i][j].0)
    ensures LoadRows(prefix, Some(columns), table) == KeepAll(LoadRows(prefix, None, table), Bares(columns))
  {
    if table != [] {
      var n := |table| - 1;
      LoadAllKeep(prefix, columns, table[..n]);
      LoadKeep(prefix, columns, table[n]);
      KeepAllSnoc(LoadRows(prefix, None, table[..n]), LoadRow(prefix, None, table[n]), Bares(columns));
    }
  }

  // ----- operators on trimmed rows -----

  function Trim(s: Stream, bares: set<Bytes>): Stream {
    Stream(KeepAll(s.rows, bares), s.error)
  }

  function TrimAll(r: Result<Stream>, bares: set<Bytes>): Result<Stream> {
    if r.Ok? then Ok(Trim(r.value, bares)) else r
  }

  function OpReads(op: RowOp): seq<Bytes> {
    match op case Keeping(pred) => AllColumns(pred) case Projecting(items) => ItemReads(items)
  }

  lemma {:induction false} ItemCovered(items: seq<Item>, bares: set<Bytes>, i: nat)
    requires Covers(bares, ItemReads(items)) && i < |items|
    ensures Covers(bares, AllColumns(items[i].expr))
  {
    var n := |items| - 1;
    CoversAppend(bares, ItemReads(items[..n]), AllColumns(items[n].expr));
    if i < n { ItemCovered(items[..n], bares, i); }
  }

  lemma {:induction false} ProjectLocal(env: Env, items: seq<Item>, row: Row, bares: set<Bytes>)
    requires forall i :: 0 <= i < |items| ==> Covers(bares, AllColumns(items[i].expr))
    ensures ProjectRow(env, items, KeepBare(row, bares)) == ProjectRow(env, items, row)
  {
    if items != [] {
      EvalLocal(env, items[0].expr, row, bares);
      ProjectLocal(env, items[1..], row, bares);
    }
  }

  /** A filter trims with its input; a projection does not see the difference. */
  lemma OnRowLocal(env: Env, op: RowOp, row: Row, bares: set<Bytes>)
    requires Covers(bares, OpReads(op))
    ensures OnRow(env, op, KeepBare(row, bares))
         == match OnRow(env, op, row)
            case Err(e) => Err(e)
            case Ok(out) => Ok(if op.Keeping? then KeepAll(out, bares) else out)
  {
    match op
    case Keeping(pred) =>
      EvalLocal(env, pred, row, bares);
      SameElements(KeepAll([row], bares), [KeepBare(row, bares)]);
      SameElements(KeepAll([], bares), []);
    case Projecting(items) =>
      forall i | 0 <= i < |items| ensures Covers(bares, AllColumns(items[i].expr)) { ItemCovered(items, bares, i); }
      ProjectLocal(env, items, row, bares);
  }

  lemma {:induction false} ThroughLocal(env: Env, op: RowOp, rows: seq<Row>, bares: set<Bytes>)
    requires Covers(bares, OpReads(op))
    ensures Through(env, op, KeepAll(rows, bares))
         == if op.Keeping? then Trim(Through(env, op, rows), bares) else Through(env, op, rows)
  {
    if rows != [] {
      var n := |rows| - 1;
      ThroughLocal(env, op, rows[..n], bares);
      KeepAllSlice(rows, 0, n, bares);
      OnRowLocal(env, op, rows[n], bares);
      var before := Through(env, op, rows[..n]);
      if before.error.None? && OnRow(env, op, rows[n]).Ok? && op.Keeping? {
        KeepAllAppend(before.rows, OnRow(env, op, rows[n]).value, bares);
      }
    }
  }

  lemma {:induction false} CompareLocal(env: Env, keys: SortKeys, a: Row, b: Row, bares: set<Bytes>)
    requires Covers(bares, Names(keys))
    ensures Compare(env, keys, KeepBare(a, bares), KeepBare(b, bares)) == Compare(env, keys, a, b)
  {
    if keys != [] {
      assert Names(keys)[0] == keys[0].0 && Names(keys)[1..] == Names(keys[1..]);
      KeepFindMatch(a, bares, keys[0].0);
      KeepFindMatch(b, bares, keys[0].0);
      CompareLocal(env, keys[1..], a, b, bares);
    }
  }

  lemma {:induction false} InsertLocal(env: Env, keys: SortKeys, rows: seq<Row>, x: Row, bares: set<Bytes>)
    requires Covers(bares, Names(keys))
    ensures Sorting.Insert(KeepAll(rows, bares), KeepBare(x, bares), RowOrder(env, keys))
         == KeepAll(Sorting.Insert(rows, x, RowOrder(env, keys)), bares)
  {
    var le := RowOrder(env, keys);
    if rows == [] {
      KeepAllSnoc([], x, bares);
    } else {
      var n := |rows| - 1;
      CompareLocal(env, keys, rows[n], x, bares);
      InsertLocal(env, keys, rows[..n], x, bares);
      KeepAllSlice(rows, 0, n, bares);
      if le(rows[n], x) {
        KeepAllSnoc(rows, x, bares);
      } else {
        KeepAllSnoc(Sorting.Insert(rows[..n], x, le), rows[n], bares);
      }
    }
  }

  lemma {:induction false} SortLocal(env: Env, keys: SortKeys, rows: seq<Row>, bares: set<Bytes>)
    requires Covers(bares, Names(keys))
    ensures Sorting.Sort(KeepAll(rows, bares), RowOrder(env, keys)) == KeepAll(Sorting.Sort(rows, RowOrder(env, keys)), bares)
  {
    if rows != [] {
      var n := |rows| - 1;
      SortLocal(env, keys, rows[..n], bares);
      KeepAllSlice(rows, 0, n, bares);
      InsertLocal(env, keys, Sorting.Sort(rows[..n], RowOrder(env, keys)), rows[n], bares);
    }
  }

  lemma LimitLocal(s: Stream, limit: nat, offset: nat, bares: set<Bytes>)
    ensures Limited(Trim(s, bares), limit, offset) == TrimAll(Limited(s, limit, offset), bares)
  {
    if |s.rows| >= offset {
      var rest := s.rows[offset..];
      KeepAllSlice(s.rows, offset, |s.rows|, bares);
      assert s.rows[offset..|s.rows|] == rest && KeepAll(s.rows, bares)[offset..|s.rows|] == KeepAll(s.rows, bares)[offset..];
      if limit <= |rest| { KeepAllSlice(rest, 0, limit, bares); }
    } else {
      assert KeepAll([], bares) == [];
    }
  }

  lemma {:induction false} PairsWithLocal(l: Row, right: seq<Row>, bares: set<Bytes>)
    ensures PairsWith(KeepBare(l, bares), KeepAll(right, bares)) == KeepAll(PairsWith(l, right), bares)
  {
    if right != [] {
      var n := |right| - 1;
      PairsWithLocal(l, right[..n], bares);
      KeepAllSlice(right, 0, n, bares);
      KeepAppend(l, right[n], bares);
      KeepAllSnoc(PairsWith(l, right[..n]), l + right[n], bares);
    }
  }

  lemma {:induction false} PairsLocal(left: seq<Row>, right: seq<Row>, bares: set<Bytes>)
    ensures Pairs(KeepAll(left, bares), KeepAll(right, bares)) == KeepAll(Pairs(left, right), bares)
  {
    if left != [] {
      var n := |left| - 1;
      PairsLocal(left[..n], right, bares);
      KeepAllSlice(left, 0, n, bares);
      PairsWithLocal(left[n], right, bares);
      KeepAllAppend(Pairs(left[..n], right), PairsWith(left[n], right), bares);
    }
  }

  // ----- the plan on trimmed rows -----

  /** The pruned plan's outcome: the same above a projection, the trimmed rows below it. */
  function Seen(p: Plan, r: Result<Stream>, bares: set<Bytes>): Result<Stream> {
    if Projects(p) then r else TrimAll(r, bares)
  }

  lemma PullLocal(env: Env, op: RowOp, s: Stream, bares: set<Bytes>)
    requires Covers(bares, OpReads(op))
    ensures Pull(env, op, Trim(s, bares)) == if op.Keeping? then Trim(Pull(env, op, s), bares) else Pull(env, op, s)
  {
    ThroughLocal(env, op, s.rows, bares);
  }

  lemma FilterSeen(db: Db, input: Plan, pred: Expr, r: Result<Stream>, bares: set<Bytes>)
    requires Exec(db, input) == r && Covers(bares, AllColumns(pred))
    ensures (match Seen(input, r, bares) case Err(e) => Err(e) case Ok(s) => Ok(Pull(db.env, Keeping(pred), s)))
         == Seen(Filter(input, pred), Exec(db, Filter(input, pred)), bares)
  {
    if r.Ok? { PullLocal(db.env, Keeping(pred), r.value, bares); }
  }

  lemma ProjectSeen(db: Db, input: Plan, items: seq<Item>, r: Result<Stream>, bares: set<Bytes>)
    requires Exec(db, input) == r && Covers(bares, ItemReads(items))
    ensures (match Seen(input, r, bares) case Err(e) => Err(e) case Ok(s) => Ok(Pull(db.env, Projecting(items), s)))
         == Exec(db, Project(input, items))
  {
    if r.Ok? { PullLocal(db.env, Projecting(items), r.value, bares); }
  }

  lemma MaterializeSeen(p: Plan, r: Result<Stream>, bares: set<Bytes>)
    ensures Materialize(Seen(p, r, bares))
         == match Materialize(r) case Err(e) => Err(e) case Ok(rows) => Ok(if Projects(p) then rows else KeepAll(rows, bares))
  {
  }

  lemma JoinSeen(db: Db, left: Plan, right: Plan, on: Expr, bares: set<Bytes>)
    requires !Projects(left) && !Projects(right) && Covers(bares, AllColumns(on))
    requires Materialize(Exec(db, left)).Ok? && Materialize(Exec(db, right)).Ok?
    ensures var ls, rs := Materialize(Exec(db, left)).value, Materialize(Exec(db, right)).value;
            Through(db.env, Keeping(on), Pairs(KeepAll(ls, bares), KeepAll(rs, bares)))
            == Trim(Through(db.env, Keeping(on), Pairs(ls, rs)), bares)
  {
    var ls, rs := Materialize(Exec(db, left)).value, Materialize(Exec(db, right)).value;
    PairsLocal(ls, rs, bares);
    ThroughLocal(db.env, Keeping(on), Pairs(ls, rs), bares);
  }

  lemma ScanSeen(db: Db, table: Bytes, prefix: Bytes, columns: seq<Bytes>)
    requires DotFree(db)
    ensures ScanRows(db, table, prefix, Some(columns)) == KeepAll(ScanRows(db, table, prefix, None), Bares(columns))
  {
    if table == [] {
      SameElements(KeepAll([[]], Bares(columns)), [[]]);
    } else if table in db.tables {
      LoadAllKeep(prefix, columns, db.tables[table]);
    } else {
      SameElements(KeepAll([], Bares(columns)), []);
    }
  }

  /** With columns that cover what the plan reads, pruning shows only below the projection. */
  lemma {:induction false} PruneWith(db: Db, p: Plan, columns: seq<Bytes>)
    requires DotFree(db) && Unpruned(p) && JoinsLow(p) && Covers(Bares(columns), Reads(p))
    ensures Exec(db, Apply(p, Some(columns))) == Seen(p, Exec(db, p), Bares(columns))
    decreases p
  {
    var bares := Bares(columns);
    match p
    case Scan(table, prefix, _) => ScanSeen(db, table, prefix, columns);
    case Filter(input, pred) =>
      CoversAppend(bares, Reads(input), AllColumns(pred));
      PruneWith(db, input, columns);
      FilterSeen(db, input, pred, Exec(db, input), bares);
    case Project(input, items) =>
      CoversAppend(bares, Reads(input), ItemReads(items));
      PruneWith(db, input, columns);
      ProjectSeen(db, input, items, Exec(db, input), bares);
    case Aggregated(input, groupBy, aggs) =>
      CoversAppend(bares, Reads(input), ReadColumns(None, groupBy, aggs));
      PruneWith(db, input, columns);
      MaterializeSeen(input, Exec(db, input), bares);
      if Materialize(Exec(db, input)).Ok? {
        FoldLocal(db.env, Materialize(Exec(db, input)).value, None, groupBy, aggs, bares);
      }
    case Sorted(input, keys) =>
      CoversAppend(bares, Reads(input), Names(keys));
      PruneWith(db, input, columns);
      MaterializeSeen(input, Exec(db, input), bares);
      if Materialize(Exec(db, input)).Ok? { SortLocal(db.env, keys, Materialize(Exec(db, input)).value, bares); }
    case Limit(input, limit, offset) =>
      PruneWith(db, input, columns);
      if Exec(db, input).Ok? { LimitLocal(Exec(db, input).value, limit, offset, bares); }
    case LoopJoin(left, right, on) =>
      CoversAppend(bares, Reads(left) + Reads(right), AllColumns(on));
      CoversAppend(bares, Reads(left), Reads(right));
      PruneWith(db, left, columns);
      PruneWith(db, right, columns);
      MaterializeSeen(left, Exec(db, left), bares);
      MaterializeSeen(right, Exec(db, right), bares);
      if Materialize(Exec(db, left)).Ok? && Materialize(Exec(db, right)).Ok? { JoinSeen(db, left, right, on, bares); }
  }

  // ----- the collected columns cover the simple expressions -----

  /** Expressions without IN, BETWEEN or subqueries. */
  predicate Simple(e: Expr)
    decreases e, 1
  {
    match e
    case InList(_, _, _) => false
    case Between(_, _, _, _) => false
    case InSubquery(_, _, _) => false
    case Unary(_, x) => Simple(x)
    case IsNull(x, _) => Simple(x)
    case Cast(x, _) => Simple(x)
    case Paren(x) => Simple(x)
    case Binary(_, l, r) => Simple(l) && Simple(r)
    case Function(_, args) => AllSimple(args)
    case _ => true
  }

  predicate AllSimple(es: seq<Expr>)
    decreases es, 0
  {
    es == [] || (Simple(es[0]) && AllSimple(es[1..]))
  }

  predicate SimplePlan(p: Plan) {
    match p
    case Scan(_, _, _) => true
    case Filter(input, pred) => SimplePlan(input) && Simple(pred)
    case Project(input, items) => SimplePlan(input) && forall i :: 0 <= i < |items| ==> Simple(items[i].expr)
    case LoopJoin(left, right, on) => SimplePlan(left) && SimplePlan(right) && Simple(on)
    case _ => SimplePlan(p.input)
  }

  lemma {:induction false} ColumnsInIsAll(e: Expr)
    requires Simple(e)
    ensures ColumnsIn(e) == AllColumns(e)
    decreases e, 1
  {
    match e
    case Unary(_, x) => ColumnsInIsAll(x);
    case IsNull(x, _) => ColumnsInIsAll(x);
    case Cast(x, _) => ColumnsInIsAll(x);
    case Paren(x) => ColumnsInIsAll(x);
    case Binary(_, l, r) =>
      ColumnsInIsAll(l);
      ColumnsInIsAll(r);
    case Function(_, args) => ColumnsInAllIsAll(args);
    case _ =>
  }

  lemma {:induction false} ColumnsInAllIsAll(es: seq<Expr>)
    requires AllSimple(es)
    ensures ColumnsInAll(es) == AllColumnsOf(es)
    decreases es, 0
  {
    if es != [] {
      ColumnsInIsAll(es[0]);
      ColumnsInAllIsAll(es[1..]);
    }
  }

  lemma {:induction false} ItemColumnsAre(items: seq<Item>)
    requires forall i :: 0 <= i < |items| ==> Simple(items[i].expr)
    ensures ItemColumns(items) == ItemReads(items)
  {
    if items != [] {
      ItemColumnsAre(items[..|items| - 1]);
      ColumnsInIsAll(items[|items| - 1].expr);
    }
  }

  lemma CoversSelf(columns: seq<Bytes>, all: seq<Bytes>)
    requires forall c :: c in columns ==> c in all
    ensures Covers(Bares(all), columns)
  {
    forall i | 0 <= i < |columns| ensures Bare(columns[i]) in Bares(all) {
      assert columns[i] in all;
      var j :| 0 <= j < |all| && all[j] == columns[i];
    }
  }

  lemma CoversMore(bares: set<Bytes>, more: set<Bytes>, columns: seq<Bytes>)
    requires Covers(bares, columns) && bares <= more
    ensures Covers(more, columns)
  {
  }

  lemma BaresSubset(a: seq<Bytes>, b: seq<Bytes>)
    requires forall c :: c in a ==> c in b
    ensures Bares(a) <= Bares(b)
  {
    CoversSelf(a, b);
  }

  /** Adding columns to the collected ones keeps what they cover and covers the new ones. */
  lemma CollectMore(before: seq<Bytes>, seen: seq<Bytes>, more: seq<Bytes>, all: seq<Bytes>)
    requires Covers(Bares(before), seen) && forall c :: c in before + more ==> c in all
    ensures Covers(Bares(all), seen + more)
  {
    assert forall c :: c in before || c in more ==> c in before + more;
    BaresSubset(before, all);
    CoversMore(Bares(before), Bares(all), seen);
    CoversSelf(more, all);
    CoversAppend(Bares(all), seen, more);
  }

  lemma {:induction false} CollectCovers(p: Plan)
    requires SimplePlan(p)
    ensures Covers(Bares(OrNone(Collect(p))), Reads(p))
  {
    match p
    case Scan(_, _, _) =>
    case Filter(input, pred) =>
      CollectCovers(input);
      ColumnsInIsAll(pred);
      CollectMore(OrNone(Collect(input)), Reads(input), AllColumns(pred), OrNone(Collect(p)));
    case Project(input, items) =>
      CollectCovers(input);
      ItemColumnsAre(items);
      CollectMore(OrNone(Collect(input)), Reads(input), ItemReads(items), OrNone(Collect(p)));
    case Aggregated(input, groupBy, aggs) =>
      CollectCovers(input);
      assert ReadColumns(None, groupBy, aggs) == groupBy + AggColumns(aggs);
      CollectMore(OrNone(Collect(input)), Reads(input), groupBy + AggColumns(aggs), OrNone(Collect(p)));
    case Sorted(input, keys) =>
      CollectCovers(input);
      CollectMore(OrNone(Collect(input)), Reads(input), Names(keys), OrNone(Collect(p)));
    case Limit(input, _, _) => CollectCovers(input);
    case LoopJoin(left, right, on) =>
      CollectCovers(left);
      CollectCovers(right);
      ColumnsInIsAll(on);
      var l, r := OrNone(Collect(left)), OrNone(Collect(right));
      assert forall c :: c in l || c in r ==> c in l + r;
      CollectMore(l, Reads(left), [], l + r);
      BaresSubset(r, l + r);
      CoversMore(Bares(r), Bares(l + r), Reads(right));
      assert Reads(left) + [] == Reads(left);
      CoversAppend(Bares(l + r), Reads(left), Reads(right));
      CollectMore(l + r, Reads(left) + Reads(right), AllColumns(on), OrNone(Collect(p)));
  }

  lemma {:induction false} ApplyNone(p: Plan)
    requires Unpruned(p)
    ensures Apply(p, None) == p
  {
    match p
    case Scan(_, _, _) =>
    case LoopJoin(left, right, _) =>
      ApplyNone(left);
      ApplyNone(right);
    case _ => ApplyNone(p.input);
  }

  /** Pruning is invisible above a projection when nothing is collected or the collected columns cover what the plan reads. */
  lemma PruningCovered(db: Db, p: Plan)
    requires DotFree(db) && Unpruned(p) && JoinsLow(p) && Projects(p)
    requires Collect(p).None? || Covers(Bares(Collect(p).value), Reads(p))
    ensures Exec(db, Pushdown(p)) == Exec(db, p)
  {
    if Collect(p).None? {
      ApplyNone(p);
    } else {
      PruneWith(db, p, Collect(p).value);
    }
  }

  /** Without IN, BETWEEN and subqueries they always do: the same rows or the same error. */
  lemma PruningInvisible(db: Db, p: Plan)
    requires DotFree(db) && Unpruned(p) && JoinsLow(p) && Projects(p) && SimplePlan(p)
    ensures Exec(db, Pushdown(p)) == Exec(db, p)
  {
    CollectCovers(p);
    PruningCovered(db, p);
  }
}
