/** Columns that only IN or BETWEEN mentions: the planner does not collect them, so scans drop them. */
module HiddenColumns {
  import opened ByteStrings
  import opened Values
  import opened Columns
  import opened Expressions
  import opened Aggregation
  import opened Pruning
  import TableScan

  // ----- streams from the front -----

  lemma {:induction false} ThroughCons(env: Env, op: RowOp, row: Row, rest: seq<Row>)
    ensures Through(env, op, [row] + rest)
         == match OnRow(env, op, row)
            case Err(e) => Stream([], Some(e))
            case Ok(out) => var after := Through(env, op, rest); Stream(out + after.rows, after.error)
  {
    var all := [row] + rest;
    if rest == [] {
      assert all[..0] == [] && all[0] == row;
      assert Through(env, op, all[..0]) == Stream([], None);
    } else {
      var n := |rest| - 1;
      assert all[..|all| - 1] == [row] + rest[..n];
      ThroughCons(env, op, row, rest[..n]);
    }
  }

  /** A test of one column against literals, by IN or BETWEEN. */
  predicate HiddenTest(pred: Expr) {
    match pred
    case InList(x, values, _) => x.Column? && forall i :: 0 <= i < |values| ==> values[i].Literal?
    case Between(x, low, high, _) => x.Column? && low.Literal? && high.Literal?
    case _ => false
  }

  function Tested(pred: Expr): Bytes
    requires HiddenTest(pred)
  {
    ColumnName(pred.expr.table, pred.expr.column)
  }

  predicate Lacks(pred: Expr, row: Row)
    requires HiddenTest(pred)
  {
    EvalColumn(pred.expr.table, pred.expr.column, row).Err?
  }

  lemma {:induction false} LiteralsSucceed(env: Env, v: Value, values: seq<Expr>, row: Row)
    requires forall i :: 0 <= i < |values| ==> values[i].Literal?
    ensures InAny(env, v, values, row).Ok?
  {
    if values != [] {
      assert values[0].Literal?;
      LiteralsSucceed(env, v, values[1..], row);
    }
  }

  /** The test fails for want of its column exactly on the rows that lack it. */
  lemma TestFails(env: Env, pred: Expr, row: Row)
    requires HiddenTest(pred)
    ensures EvalPredicate(env, pred, row) == Err(UnknownColumn(Tested(pred))) <==> Lacks(pred, row)
  {
    var x := Eval(env, pred.expr, row);
    assert x == EvalColumn(pred.expr.table, pred.expr.column, row);
    if pred.InList? {
      if x.Ok? { LiteralsSucceed(env, x.value, pred.values, row); }
    } else {
      assert Eval(env, pred.low, row).Ok? && Eval(env, pred.high, row).Ok?;
    }
  }

  /** The first row that the test does not reject lacks the column. */
  predicate Stops(env: Env, pred: Expr, rows: seq<Row>)
    requires HiddenTest(pred)
  {
    rows != [] && (Lacks(pred, rows[0]) || (EvalPredicate(env, pred, rows[0]) == Ok(false) && Stops(env, pred, rows[1..])))
  }

  // ----- which errors name a column -----

  /** Casts and distances do not report unknown columns. */
  ghost predicate NamesNoColumn(env: Env) {
    && (forall v, ty :: env.cast(v, ty).Err? ==> !env.cast(v, ty).error.UnknownColumn?)
    && (forall a, b :: env.distance(a, b).Err? ==> !env.distance(a, b).error.UnknownColumn?)
  }

  predicate Unknown<T(==)>(r: Result<T>, name: Bytes) {
    r.Err? && r.error == UnknownColumn(name)
  }

  lemma ScalarNames(env: Env, f: Bytes, v: Value, name: Bytes)
    ensures !Unknown(Scalar(env, f, v), name)
  {
  }

  lemma StrictNames(env: Env, op: BinaryOp, l: Value, r: Value, name: Bytes)
    requires NamesNoColumn(env)
    ensures !Unknown(Strict(env, op, l, r), name)
  {
  }

  /** An unknown column that evaluation reports is one that the expression mentions. */
  lemma {:induction false} EvalNames(env: Env, e: Expr, row: Row, name: Bytes)
    requires NamesNoColumn(env) && Unknown(Eval(env, e, row), name)
    ensures name in AllColumns(e)
    decreases e, 1
  {
    match e
    case Column(t, c) => assert AllColumns(e)[0] == name;
    case Unary(_, x) => if Unknown(Eval(env, x, row), name) { EvalNames(env, x, row, name); }
    case Binary(op, l, r) =>
      if Unknown(Eval(env, l, row), name) {
        EvalNames(env, l, row, name);
      } else if Unknown(Eval(env, r, row), name) {
        EvalNames(env, r, row, name);
      } else if Eval(env, l, row).Ok? && Eval(env, r, row).Ok? {
        StrictNames(env, op, Eval(env, l, row).value, Eval(env, r, row).value, name);
      }
    case IsNull(x, _) => EvalNames(env, x, row, name);
    case InList(x, values, _) =>
      if Unknown(Eval(env, x, row), name) { EvalNames(env, x, row, name); }
      else { InAnyNames(env, Eval(env, x, row).value, values, row, name); }
    case Between(x, low, high, _) =>
      if Unknown(Eval(env, x, row), name) { EvalNames(env, x, row, name); }
      else if Unknown(Eval(env, low, row), name) { EvalNames(env, low, row, name); }
      else if Unknown(Eval(env, high, row), name) { EvalNames(env, high, row, name); }
    case Paren(x) => EvalNames(env, x, row, name);
    case Cast(x, _) => if Unknown(Eval(env, x, row), name) { EvalNames(env, x, row, name); }
    case Function(f, args) =>
      if AsciiUpper(f) == COALESCE {
        FirstNonNullNames(env, args, row, name);
      } else if args != [] {
        if Unknown(Eval(env, args[0], row), name) { EvalNames(env, args[0], row, name); }
        else if Eval(env, args[0], row).Ok? { ScalarNames(env, AsciiUpper(f), Eval(env, args[0], row).value, name); }
      }
    case _ =>
  }

  lemma {:induction false} InAnyNames(env: Env, v: Value, values: seq<Expr>, row: Row, name: Bytes)
    requires NamesNoColumn(env) && Unknown(InAny(env, v, values, row), name)
    ensures name in AllColumnsOf(values)
    decreases values, 0
  {
    var seen := if values[0].Literal? || values[0].Parameter? then [] else row;
    if Unknown(Eval(env, values[0], seen), name) { EvalNames(env, values[0], seen, name); }
    else { InAnyNames(env, v, values[1..], row, name); }
  }

  lemma {:induction false} FirstNonNullNames(env: Env, args: seq<Expr>, row: Row, name: Bytes)
    requires NamesNoColumn(env) && Unknown(FirstNonNull(env, args, row), name)
    ensures name in AllColumnsOf(args)
    decreases args, 0
  {
    if Unknown(Eval(env, args[0], row), name) { EvalNames(env, args[0], row, name); }
    else { FirstNonNullNames(env, args[1..], row, name); }
  }

  lemma {:induction false} ProjectNames(env: Env, items: seq<Item>, row: Row, name: Bytes) returns (i: nat)
    requires NamesNoColumn(env) && Unknown(ProjectRow(env, items, row), name)
    ensures i < |items| && name in AllColumns(items[i].expr)
  {
    if Unknown(Eval(env, items[0].expr, row), name) {
      EvalNames(env, items[0].expr, row, name);
      i := 0;
    } else {
      i := ProjectNames(env, items[1..], row, name);
      i := i + 1;
    }
  }

  // ----- a projection of the rows that pass the test -----

  function TestPlan(table: Bytes, prefix: Bytes, pred: Expr, items: seq<Item>): Plan {
    Project(Filter(Scan(table, prefix, None), pred), items)
  }

  function Selected(env: Env, pred: Expr, items: seq<Item>, rows: seq<Row>): Stream {
    Pull(env, Projecting(items), Through(env, Keeping(pred), rows))
  }

  function Failed(pred: Expr): Stream
    requires HiddenTest(pred)
  {
    Stream([], Some(UnknownColumn(Tested(pred))))
  }

  lemma {:induction false} StopsFails(env: Env, pred: Expr, items: seq<Item>, rows: seq<Row>)
    requires HiddenTest(pred) && Stops(env, pred, rows)
    ensures Selected(env, pred, items, rows) == Failed(pred) == Through(env, Keeping(pred), rows)
  {
    assert rows == [rows[0]] + rows[1..];
    ThroughCons(env, Keeping(pred), rows[0], rows[1..]);
    TestFails(env, pred, rows[0]);
    if !Lacks(pred, rows[0]) { StopsFails(env, pred, items, rows[1..]); }
    assert Through(env, Projecting(items), []) == Stream([], None);
  }

  /** None of the items mentions the tested column, by whatever qualifier. */
  predicate Unmentioned(pred: Expr, items: seq<Item>)
    requires HiddenTest(pred)
  {
    forall i :: 0 <= i < |items| ==> Tested(pred) !in AllColumns(items[i].expr)
  }

  lemma KeptShows(env: Env, pred: Expr, items: seq<Item>, row: Row, more: seq<Row>, error: Option<Error>)
    requires HiddenTest(pred) && NamesNoColumn(env) && Unmentioned(pred, items)
    ensures Pull(env, Projecting(items), Stream([row] + more, error)) != Failed(pred)
  {
    ThroughCons(env, Projecting(items), row, more);
    if Unknown(ProjectRow(env, items, row), Tested(pred)) {
      var i := ProjectNames(env, items, row, Tested(pred));
    }
  }

  lemma {:induction false} ElseDiffers(env: Env, pred: Expr, items: seq<Item>, rows: seq<Row>)
    requires HiddenTest(pred) && NamesNoColumn(env) && Unmentioned(pred, items)
    requires rows != [] && !Stops(env, pred, rows)
    ensures Selected(env, pred, items, rows) != Failed(pred)
  {
    var op, rest := Keeping(pred), rows[1..];
    assert rows == [rows[0]] + rest;
    ThroughCons(env, op, rows[0], rest);
    TestFails(env, pred, rows[0]);
    assert Through(env, Projecting(items), []) == Stream([], None);
    match EvalPredicate(env, pred, rows[0])
    case Err(e) =>
    case Ok(true) =>
      var after := Through(env, op, rest);
      KeptShows(env, pred, items, rows[0], after.rows, after.error);
    case Ok(false) =>
      assert Through(env, op, rows) == Through(env, op, rest) by { assert [] + Through(env, op, rest).rows == Through(env, op, rest).rows; }
      if rest != [] { ElseDiffers(env, pred, items, rest); }
  }

  // ----- the pruned scan -----

  lemma {:induction false} DroppedLookup(row: Row, bares: set<Bytes>, name: Bytes)
    requires Bare(name) !in bares
    ensures Lookup(KeepBare(row, bares), name) == None && SuffixMatches(KeepBare(row, bares), name) == []
  {
    if row != [] {
      DroppedLookup(row[1..], bares, name);
      if Bare(row[0].0) in bares {
        var kept := KeepBare(row, bares);
        assert kept[0] == row[0] && kept[1..] == KeepBare(row[1..], bares);
      }
    }
  }

  lemma DroppedColumn(pred: Expr, row: Row, bares: set<Bytes>)
    requires HiddenTest(pred) && Bare(Tested(pred)) !in bares
    ensures Lacks(pred, KeepBare(row, bares))
  {
    BareColumnName(pred.expr.table, pred.expr.column);
    DroppedLookup(row, bares, pred.expr.column);
    DroppedLookup(row, bares, Tested(pred));
  }

  lemma ExecSelected(db: Db, table: Bytes, prefix: Bytes, columns: Option<seq<Bytes>>, pred: Expr, items: seq<Item>)
    ensures Exec(db, Project(Filter(Scan(table, prefix, columns), pred), items))
         == Ok(Selected(db.env, pred, items, ScanRows(db, table, prefix, columns)))
  {
    var scan := Scan(table, prefix, columns);
    assert Exec(db, scan) == Ok(Stream(ScanRows(db, table, prefix, columns), None));
    assert Exec(db, Filter(scan, pred)) == Ok(Through(db.env, Keeping(pred), ScanRows(db, table, prefix, columns)));
  }

  lemma PrunedFails(db: Db, table: Bytes, prefix: Bytes, columns: seq<Bytes>, pred: Expr, items: seq<Item>)
    requires DotFree(db) && HiddenTest(pred) && Bare(Tested(pred)) !in Bares(columns) && ScanRows(db, table, prefix, None) != []
    ensures Exec(db, Project(Filter(Scan(table, prefix, Some(columns)), pred), items)) == Ok(Failed(pred))
  {
    var rows := ScanRows(db, table, prefix, None);
    ScanSeen(db, table, prefix, columns);
    DroppedColumn(pred, rows[0], Bares(columns));
    ExecSelected(db, table, prefix, Some(columns), pred, items);
    StopsFails(db.env, pred, items, ScanRows(db, table, prefix, Some(columns)));
  }

  lemma TestCollects(table: Bytes, prefix: Bytes, pred: Expr, items: seq<Item>)
    requires HiddenTest(pred)
    ensures var p := TestPlan(table, prefix, pred, items);
            && Collect(p) == SomeUnlessEmpty(Dedup(ItemColumns(items)))
            && (Collect(p).None? <==> ItemColumns(items) == [])
            && (Collect(p).Some? ==> Bares(Collect(p).value) == Bares(ItemColumns(items)))
  {
    var p, columns := TestPlan(table, prefix, pred, items), ItemColumns(items);
    DedupNone();
    assert ColumnsIn(pred) == [];
    assert Collect(p.input) == Some([]);
    assert [] + columns == columns;
    if columns != [] { assert columns[0] in Dedup(columns); }
    BaresSubset(columns, Dedup(columns));
    BaresSubset(Dedup(columns), columns);
  }

  lemma DedupNone()
    ensures Dedup([]) == []
  {
  }

  lemma {:induction false} LiteralsReadNothing(es: seq<Expr>)
    requires forall i :: 0 <= i < |es| ==> es[i].Literal?
    ensures AllColumnsOf(es) == []
  {
    if es != [] { LiteralsReadNothing(es[1..]); }
  }

  lemma TestReads(table: Bytes, prefix: Bytes, pred: Expr, items: seq<Item>)
    requires HiddenTest(pred)
    ensures Reads(TestPlan(table, prefix, pred, items)) == [Tested(pred)] + ItemReads(items)
  {
    if pred.InList? { LiteralsReadNothing(pred.values); }
    assert AllColumns(pred) == [Tested(pred)];
    assert Reads(Filter(Scan(table, prefix, None), pred)) == [] + AllColumns(pred);
  }

  lemma {:induction false} ReadsUnmentioned(pred: Expr, items: seq<Item>)
    requires HiddenTest(pred) && Bare(Tested(pred)) !in Bares(ItemReads(items))
    ensures Unmentioned(pred, items)
  {
    forall i | 0 <= i < |items| ensures Tested(pred) !in AllColumns(items[i].expr) {
      var bares := Bares(ItemReads(items));
      CoversSelf(ItemReads(items), ItemReads(items));
      ItemCovered(items, bares, i);
    }
  }

  /**
   * `SELECT items FROM table WHERE column [NOT] IN (literals)`, or BETWEEN: pruning is invisible if
   * and only if nothing is collected, or an item mentions the column's bare name, or the table is
   * empty, or the first row that the test does not reject lacks the column anyway.
   */
  lemma HiddenExact(db: Db, table: Bytes, prefix: Bytes, pred: Expr, items: seq<Item>)
    requires DotFree(db) && NamesNoColumn(db.env) && HiddenTest(pred) && forall i :: 0 <= i < |items| ==> Simple(items[i].expr)
    ensures var p, rows := TestPlan(table, prefix, pred, items), ScanRows(db, table, prefix, None);
            Exec(db, Pushdown(p)) == Exec(db, p) <==>
              || ItemColumns(items) == [] || Bare(Tested(pred)) in Bares(ItemColumns(items))
              || rows == [] || Stops(db.env, pred, rows)
  {
    var p, rows := TestPlan(table, prefix, pred, items), ScanRows(db, table, prefix, None);
    TestCollects(table, prefix, pred, items);
    if ItemColumns(items) == [] {
      PruningCovered(db, p);
    } else if Bare(Tested(pred)) in Bares(ItemColumns(items)) {
      MentionedCovered(db, table, prefix, pred, items);
    } else {
      UnmentionedExact(db, table, prefix, pred, items);
    }
  }

  lemma MentionedCovered(db: Db, table: Bytes, prefix: Bytes, pred: Expr, items: seq<Item>)
    requires DotFree(db) && HiddenTest(pred) && forall i :: 0 <= i < |items| ==> Simple(items[i].expr)
    requires Bare(Tested(pred)) in Bares(ItemColumns(items))
    ensures var p := TestPlan(table, prefix, pred, items); Exec(db, Pushdown(p)) == Exec(db, p)
  {
    TestCollects(table, prefix, pred, items);
    TestCovered(table, prefix, pred, items);
    PruningCovered(db, TestPlan(table, prefix, pred, items));
  }

  lemma TestCovered(table: Bytes, prefix: Bytes, pred: Expr, items: seq<Item>)
    requires HiddenTest(pred) && forall i :: 0 <= i < |items| ==> Simple(items[i].expr)
    requires Bare(Tested(pred)) in Bares(ItemColumns(items))
    ensures Covers(Bares(ItemColumns(items)), Reads(TestPlan(table, prefix, pred, items)))
  {
    TestReads(table, prefix, pred, items);
    ItemColumnsAre(items);
    CoversSelf(ItemReads(items), ItemColumns(items));
    CoversAppend(Bares(ItemColumns(items)), [Tested(pred)], ItemReads(items));
  }

  lemma UnmentionedExact(db: Db, table: Bytes, prefix: Bytes, pred: Expr, items: seq<Item>)
    requires DotFree(db) && NamesNoColumn(db.env) && HiddenTest(pred) && forall i :: 0 <= i < |items| ==> Simple(items[i].expr)
    requires ItemColumns(items) != [] && Bare(Tested(pred)) !in Bares(ItemColumns(items))
    ensures var p, rows := TestPlan(table, prefix, pred, items), ScanRows(db, table, prefix, None);
            Exec(db, Pushdown(p)) == Exec(db, p) <==> rows == [] || Stops(db.env, pred, rows)
  {
    var p, rows := TestPlan(table, prefix, pred, items), ScanRows(db, table, prefix, None);
    TestCollects(table, prefix, pred, items);
    var columns := Collect(p).value;
    assert Apply(Scan(table, prefix, None), Some(columns)) == Scan(table, prefix, Some(columns));
    assert Apply(p.input, Some(columns)) == Filter(Scan(table, prefix, Some(columns)), pred);
    assert Pushdown(p) == Project(Filter(Scan(table, prefix, Some(columns)), pred), items);
    ExecSelected(db, table, prefix, None, pred, items);
    ExecSelected(db, table, prefix, Some(columns), pred, items);
    if rows == [] {
      ScanSeen(db, table, prefix, columns);
    } else {
      PrunedFails(db, table, prefix, columns, pred, items);
      ItemColumnsAre(items);
      ReadsUnmentioned(pred, items);
      if Stops(db.env, pred, rows) { StopsFails(db.env, pred, items, rows); } else { ElseDiffers(db.env, pred, items, rows); }
    }
  }

  lemma {:induction false} HoldersNeverStop(env: Env, pred: Expr, rows: seq<Row>)
    requires HiddenTest(pred) && forall i :: 0 <= i < |rows| ==> !Lacks(pred, rows[i])
    ensures !Stops(env, pred, rows)
  {
    if rows != [] { HoldersNeverStop(env, pred, rows[1..]); }
  }

  /** When every row holds the column: if and only if nothing is collected, an item mentions it, or there are no rows. */
  lemma HiddenUniform(db: Db, table: Bytes, prefix: Bytes, pred: Expr, items: seq<Item>)
    requires DotFree(db) && NamesNoColumn(db.env) && HiddenTest(pred) && forall i :: 0 <= i < |items| ==> Simple(items[i].expr)
    requires var rows := ScanRows(db, table, prefix, None); forall i :: 0 <= i < |rows| ==> !Lacks(pred, rows[i])
    ensures var p := TestPlan(table, prefix, pred, items);
            Exec(db, Pushdown(p)) == Exec(db, p) <==>
              || ItemColumns(items) == [] || Bare(Tested(pred)) in Bares(ItemColumns(items))
              || ScanRows(db, table, prefix, None) == []
  {
    HiddenExact(db, table, prefix, pred, items);
    HoldersNeverStop(db.env, pred, ScanRows(db, table, prefix, None));
  }

  // ----- IN hides its columns from the planner -----

  const A: Bytes := [97]
  const B: Bytes := [98]
  const T: Bytes := [116]

  /** `SELECT b FROM t WHERE a IN (x)`. */
  function InPlan(x: Bytes): Plan {
    Project(Filter(Scan(T, [], None), InList(Column(None, A), [Literal(StringLit(x))], false)), [Item(Column(None, B), None)])
  }

  function InDb(env: Env, emit: (seq<Bytes>, seq<Agg>, Groups) -> seq<Row>, x: Bytes, y: Bytes): Db {
    Db(env, map[T := [[(A, x), (B, y)]]], emit)
  }

  lemma DedupOne(b: Bytes)
    ensures Dedup([b]) == [b]
  {
    assert (set c | c in [b]) == {b};
    assert Dedup([b])[0] in Dedup([b]);
  }

  lemma OneItem(e: Expr)
    ensures ItemColumns([Item(e, None)]) == ColumnsIn(e)
  {
    var items := [Item(e, None)];
    assert items[..0] == [];
    assert ItemColumns(items[..0]) == [];
  }

  lemma InCollects(x: Bytes)
    ensures Collect(InPlan(x)) == Some([B])
  {
    OneItem(Column(None, B));
    DedupNone();
    DedupOne(B);
    assert [] + ColumnsIn(InPlan(x).input.pred) == [];
    assert Collect(InPlan(x).input) == Some([]);
    assert [] + [B] == [B];
  }

  lemma ScanOne(prefixed: Cols, columns: Option<seq<Bytes>>)
    ensures LoadRows([], columns, [prefixed]) == [LoadRow([], columns, prefixed)]
  {
    assert [prefixed][..0] == [];
    assert LoadRows([], columns, [prefixed][..0]) == [];
  }

  lemma PullOne(env: Env, op: RowOp, row: Row)
    ensures Pull(env, op, Stream([row], None))
         == match OnRow(env, op, row) case Err(e) => Stream([], Some(e)) case Ok(out) => Stream(out, None)
  {
    assert [row][..0] == [];
    assert Through(env, op, [row][..0]) == Stream([], None);
  }

  lemma ApartAB()
    ensures A != B && !Dotted(A) && !Dotted(B)
  {
    assert A[0] != B[0];
  }

  lemma MissingA(env: Env, v: Value, x: Bytes)
    ensures Eval(env, InList(Column(None, A), [Literal(StringLit(x))], false), [(B, v)]) == Err(UnknownColumn(A))
  {
    var row: Row := [(B, v)];
    ApartAB();
    assert row[1..] == [];
    assert Lookup(row, A) == None && SuffixMatches(row, A) == [];
    assert Eval(env, Column(None, A), row) == Err(UnknownColumn(A));
  }

  lemma PrunedRow(x: Bytes, y: Bytes)
    ensures LoadRow([], Some([B]), [(A, x), (B, y)]) == [(B, Text(y))]
  {
    var cols: Cols := [(A, x), (B, y)];
    ApartAB();
    assert cols[1..] == [(B, y)] && cols[1..][1..] == [];
    assert [B][1..] == [] && BareNames([B]) == [B];
    assert TableScan.DecodePacked(cols[1..], Some([B])) == [(B, Text(y))];
  }

  lemma FullRow(x: Bytes, y: Bytes)
    ensures LoadRow([], None, [(A, x), (B, y)]) == [(A, Text(x)), (B, Text(y))]
  {
    var cols: Cols := [(A, x), (B, y)];
    assert cols[1..] == [(B, y)] && cols[1..][1..] == [];
    assert TableScan.DecodePacked(cols[1..], None) == [(B, Text(y))];
  }

  lemma InKeeps(env: Env, x: Bytes, y: Bytes)
    ensures var row: Row := [(A, Text(x)), (B, Text(y))];
            && Eval(env, InList(Column(None, A), [Literal(StringLit(x))], false), row) == Ok(Bool(true))
            && ProjectRow(env, [Item(Column(None, B), None)], row) == Ok([(B, Text(y))])
  {
    var row: Row, values, items := [(A, Text(x)), (B, Text(y))], [Literal(StringLit(x))], [Item(Column(None, B), None)];
    ApartAB();
    assert Eval(env, Column(None, A), row) == Ok(Text(x));
    assert Eval(env, values[0], row) == Ok(Text(x));
    assert InAny(env, Text(x), values, row) == Ok(true);
    assert row[1..] == [(B, Text(y))] && Lookup(row[1..], B) == Some(Text(y));
    assert Eval(env, Column(None, B), row) == Ok(Text(y));
    assert items[1..] == [] && ProjectRow(env, items[1..], row) == Ok([]);
    assert ItemName(items[0]) == B && items[0].expr == Column(None, B);
    var out: Row := [(B, Text(y))];
    assert out + [] == out;
  }

  lemma ScanIs(env: Env, emit: (seq<Bytes>, seq<Agg>, Groups) -> seq<Row>, x: Bytes, y: Bytes, columns: Option<seq<Bytes>>)
    ensures Exec(InDb(env, emit, x, y), Scan(T, [], columns)) == Ok(Stream([LoadRow([], columns, [(A, x), (B, y)])], None))
  {
    ScanOne([(A, x), (B, y)], columns);
  }

  lemma InSucceeds(env: Env, emit: (seq<Bytes>, seq<Agg>, Groups) -> seq<Row>, x: Bytes, y: Bytes)
    ensures Exec(InDb(env, emit, x, y), InPlan(x)) == Ok(Stream([[(B, Text(y))]], None))
  {
    var db, pred, items := InDb(env, emit, x, y), InPlan(x).input.pred, InPlan(x).items;
    var row: Row := [(A, Text(x)), (B, Text(y))];
    ScanIs(env, emit, x, y, None);
    FullRow(x, y);
    InKeeps(env, x, y);
    PullOne(env, Keeping(pred), row);
    assert Exec(db, InPlan(x).input) == Ok(Stream([row], None));
    PullOne(env, Projecting(items), row);
  }

  lemma InFails(env: Env, emit: (seq<Bytes>, seq<Agg>, Groups) -> seq<Row>, x: Bytes, y: Bytes)
    ensures Exec(InDb(env, emit, x, y), Pushdown(InPlan(x))) == Ok(Stream([], Some(UnknownColumn(A))))
  {
    var db, pred, items := InDb(env, emit, x, y), InPlan(x).input.pred, InPlan(x).items;
    var below := Filter(Scan(T, [], Some([B])), pred);
    InCollects(x);
    assert Apply(InPlan(x).input.input, Some([B])) == below.input;
    assert Apply(InPlan(x).input, Some([B])) == below;
    assert Pushdown(InPlan(x)) == Project(below, items);
    assert Exec(db, below) == Ok(Stream([], Some(UnknownColumn(A)))) by {
      ScanIs(env, emit, x, y, Some([B]));
      PrunedRow(x, y);
      MissingA(env, Text(y), x);
      PullOne(env, Keeping(pred), [(B, Text(y))]);
    }
    assert Through(env, Projecting(items), []) == Stream([], None);
  }

  /** The column that only IN mentions is pruned away, and the query fails that would succeed. */
  lemma InHidesColumns(env: Env, emit: (seq<Bytes>, seq<Agg>, Groups) -> seq<Row>, x: Bytes, y: Bytes)
    ensures var db, p := InDb(env, emit, x, y), InPlan(x);
            && Exec(db, p) == Ok(Stream([[(B, Text(y))]], None))
            && Exec(db, Pushdown(p)) == Ok(Stream([], Some(UnknownColumn(A))))
  {
    InSucceeds(env, emit, x, y);
    InFails(env, emit, x, y);
  }
}
