/** Index and key lookups that load only the collected columns. */
module PrunedLookup {
  import opened ByteStrings
  import opened Values
  import opened Columns
  import opened Store
  import opened KeySpace
  import opened RowStore
  import opened IndexState
  import opened Expressions
  import opened Pruning
  import Dml
  import TableScan
  import AccessPaths

  // ----- loading -----

  /** The fields whose stored name is among the collected names, as they are written. */
  function Kept(cols: Cols, columns: seq<Bytes>): Row {
    TableScan.DecodePacked(cols, Some(columns))
  }

  function NonEmpty(row: Row): Option<Row> {
    if row == [] then None else Some(row)
  }

  function PrunedAt(rows: Table, id: Bytes, columns: seq<Bytes>): Option<Row> {
    if id in rows then NonEmpty(Kept(rows[id], columns)) else None
  }

  function Override(tree: Tree, cell: Bytes, name: Bytes, row: Row): Row {
    if cell in tree then SetColumn(row, name, Text(RecordBytes(tree[cell]))) else row
  }

  /** The packed record and then, column by column, the legacy cell; nothing when no column was found. */
  method LoadPruned(tree: Tree, t: Bytes, id: Bytes, columns: seq<Bytes>) returns (r: Option<Row>)
    requires PackedTable(tree, t)
    ensures r == PrunedAt(Rows(tree, t), id, columns)
  {
    var k := PackedKey(t, id);
    var row: Row := if k in tree && tree[k].Packed? then Kept(tree[k].cols, columns) else [];
    RowsIff(tree, t, id);
    ghost var packed := row;
    for i := 0 to |columns|
      invariant row == packed
    {
      row := Override(tree, CellKey(t, id, columns[i]), columns[i], row);
      Dml.NoCell(tree, t, id, columns[i]);
    }
    r := NonEmpty(row);
  }

  function LoadAllPruned(rows: Table, ids: seq<Bytes>, columns: seq<Bytes>): seq<Row> {
    if ids == [] then []
    else
      var n := |ids| - 1;
      LoadAllPruned(rows, ids[..n], columns) + match PrunedAt(rows, ids[n], columns) case Some(row) => [row] case None => []
  }

  lemma PrunedStep(rows: Table, ids: seq<Bytes>, i: nat, columns: seq<Bytes>)
    requires i < |ids|
    ensures var before := LoadAllPruned(rows, ids[..i], columns);
            LoadAllPruned(rows, ids[..i + 1], columns) == match PrunedAt(rows, ids[i], columns) case Some(row) => before + [row] case None => before
  {
    TakeStep(ids, i);
  }

  method PrunedIndexScan(tree: Tree, t: Bytes, c: Bytes, key: Bytes, columns: seq<Bytes>) returns (rows: seq<Row>)
    requires PackedTable(tree, t)
    ensures rows == LoadAllPruned(Rows(tree, t), SortedKeys(Under(tree, AccessPaths.LookupPrefix(t, c, key))), columns)
  {
    var ids := AccessPaths.LookupIds(tree, t, c, key);
    rows := [];
    for i := 0 to |ids|
      invariant rows == LoadAllPruned(Rows(tree, t), ids[..i], columns)
    {
      PrunedStep(Rows(tree, t), ids, i, columns);
      var row := LoadPruned(tree, t, ids[i], columns);
      if row.Some? { rows := rows + [row.value]; }
    }
    TakeAll(ids);
  }

  // ----- what is loaded -----

  predicate DotFreeNames(cols: Cols) {
    forall j :: 0 <= j < |cols| ==> !Dotted(cols[j].0)
  }

  lemma {:induction false} KeptLookup(cols: Cols, columns: seq<Bytes>, name: Bytes)
    ensures Lookup(Kept(cols, columns), name) == if name in columns then Lookup(ToRow(cols), name) else None
  {
    if cols != [] {
      KeptLookup(cols[1..], columns, name);
      assert ToRow(cols)[1..] == ToRow(cols[1..]);
      if cols[0].0 in columns {
        assert Kept(cols, columns)[1..] == Kept(cols[1..], columns);
      }
    }
  }

  lemma {:induction false} NoDottedField(cols: Cols, name: Bytes)
    requires DotFreeNames(cols) && Dotted(name)
    ensures Lookup(ToRow(cols), name) == None
  {
    if cols != [] {
      NoDottedField(cols[1..], name);
      assert ToRow(cols)[1..] == ToRow(cols[1..]);
    }
  }

  lemma HasField(cols: Cols, name: Bytes)
    ensures name in Names(cols) <==> Lookup(ToRow(cols), name).Some?
  {
    LookupToRow(cols, name);
    LookupFound(cols, name);
  }

  // ----- one item -----

  /** A plain column of the select list. */
  predicate PlainItem(item: Item) {
    item.expr.Column? && !Dotted(item.expr.column)
  }

  function ItemColumn(item: Item): Bytes
    requires PlainItem(item)
  {
    item.expr.column
  }

  predicate PlainItems(items: seq<Item>) {
    forall i :: 0 <= i < |items| ==> PlainItem(items[i])
  }

  /** What a plain column reads in a whole row, and in the loaded part of it. */
  lemma PlainReads(env: Env, item: Item, cols: Cols, columns: seq<Bytes>)
    requires PlainItem(item) && DotFreeNames(cols)
    ensures var c, name := ItemColumn(item), ColumnName(item.expr.table, item.expr.column);
            && Eval(env, item.expr, ToRow(cols)) == (match Lookup(ToRow(cols), c) case Some(v) => Ok(v) case None => Err(UnknownColumn(name)))
            && Eval(env, item.expr, Kept(cols, columns))
               == (if c in columns then Eval(env, item.expr, ToRow(cols)) else Err(UnknownColumn(name)))
  {
    var c := ItemColumn(item);
    KeptLookup(cols, columns, c);
    NoSuffix(ToRow(cols), c);
    KeptDotFree(cols, columns);
    NoSuffix(Kept(cols, columns), c);
    if item.expr.table.Some? {
      var q := Qualify(item.expr.table.value, c);
      assert q[|item.expr.table.value|] == DOT;
      NoDottedField(cols, q);
      KeptLookup(cols, columns, q);
    }
  }

  lemma {:induction false} NoSuffix(row: Row, c: Bytes)
    requires forall i :: 0 <= i < |row| ==> !Dotted(row[i].0)
    ensures SuffixMatches(row, c) == []
  {
    if row != [] { NoSuffix(row[1..], c); }
  }

  lemma {:induction false} KeptDotFree(cols: Cols, columns: seq<Bytes>)
    requires DotFreeNames(cols)
    ensures forall i :: 0 <= i < |Kept(cols, columns)| ==> !Dotted(Kept(cols, columns)[i].0)
  {
    if cols != [] {
      KeptDotFree(cols[1..], columns);
      var rest := Kept(cols[1..], columns);
      assert Kept(cols, columns) == if cols[0].0 in columns then [(cols[0].0, Text(cols[0].1))] + rest else rest;
    }
  }

  // ----- one row -----

  /**
   * Item by item up to the first column that the row lacks, every column of the row that is asked for
   * is also collected under its bare name.
   */
  predicate Clear(items: seq<Item>, cols: Cols, columns: seq<Bytes>)
    requires PlainItems(items)
  {
    || items == [] || ItemColumn(items[0]) !in Names(cols)
    || (ItemColumn(items[0]) in columns && Clear(items[1..], cols, columns))
  }

  lemma {:induction false} ProjectLacks(env: Env, items: seq<Item>, cols: Cols)
    requires PlainItems(items) && DotFreeNames(cols) && ProjectRow(env, items, ToRow(cols)).Err?
    ensures exists i :: 0 <= i < |items| && ItemColumn(items[i]) !in Names(cols)
             && ProjectRow(env, items, ToRow(cols)) == Err(UnknownColumn(ColumnName(items[i].expr.table, items[i].expr.column)))
  {
    PlainReads(env, items[0], cols, []);
    HasField(cols, ItemColumn(items[0]));
    if Eval(env, items[0].expr, ToRow(cols)).Ok? {
      ProjectLacks(env, items[1..], cols);
      var i :| 0 <= i < |items[1..]| && ItemColumn(items[1..][i]) !in Names(cols)
        && ProjectRow(env, items[1..], ToRow(cols)) == Err(UnknownColumn(ColumnName(items[1..][i].expr.table, items[1..][i].expr.column)));
      assert items[i + 1] == items[1..][i];
    }
  }

  /** A hidden column fails under its own name, a lacking one under another. */
  lemma HiddenDiffers(env: Env, items: seq<Item>, cols: Cols, hidden: Item)
    requires PlainItems(items) && DotFreeNames(cols) && PlainItem(hidden) && ItemColumn(hidden) in Names(cols)
    ensures ProjectRow(env, items, ToRow(cols)) != Err(UnknownColumn(ColumnName(hidden.expr.table, hidden.expr.column)))
  {
    if ProjectRow(env, items, ToRow(cols)).Err? {
      ProjectLacks(env, items, cols);
      BareColumnName(hidden.expr.table, hidden.expr.column);
      forall i | 0 <= i < |items| ensures Bare(ColumnName(items[i].expr.table, items[i].expr.column)) == ItemColumn(items[i]) {
        BareColumnName(items[i].expr.table, items[i].expr.column);
      }
    }
  }

  /** The projection of the loaded part is that of the whole row exactly when nothing is hidden first. */
  lemma {:induction false} ProjectExact(env: Env, items: seq<Item>, cols: Cols, columns: seq<Bytes>)
    requires PlainItems(items) && DotFreeNames(cols)
    ensures ProjectRow(env, items, Kept(cols, columns)) == ProjectRow(env, items, ToRow(cols)) <==> Clear(items, cols, columns)
  {
    if items != [] {
      var c, rest := ItemColumn(items[0]), items[1..];
      PlainReads(env, items[0], cols, columns);
      HasField(cols, c);
      if c in Names(cols) && c !in columns {
        HiddenDiffers(env, rest, cols, items[0]);
      } else if c in Names(cols) {
        ProjectExact(env, rest, cols, columns);
        SameTails(ItemName(items[0]), Eval(env, items[0].expr, ToRow(cols)).value,
                  ProjectRow(env, rest, Kept(cols, columns)), ProjectRow(env, rest, ToRow(cols)));
      }
    }
  }

  function Prepend(name: Bytes, v: Value, r: Result<Row>): Result<Row> {
    match r case Err(e) => Err(e) case Ok(rest) => Ok([(name, v)] + rest)
  }

  lemma SameTails(name: Bytes, v: Value, a: Result<Row>, b: Result<Row>)
    ensures Prepend(name, v, a) == Prepend(name, v, b) <==> a == b
  {
    if a.Ok? && b.Ok? && [(name, v)] + a.value == [(name, v)] + b.value {
      assert ([(name, v)] + a.value)[1..] == a.value && ([(name, v)] + b.value)[1..] == b.value;
    }
  }

  // ----- a lookup and its projection -----

  function WholeRows(found: seq<Cols>): (rows: seq<Row>)
    ensures |rows| == |found| && forall i :: 0 <= i < |rows| ==> rows[i] == ToRow(found[i])
  {
    if found == [] then [] else WholeRows(found[..|found| - 1]) + [ToRow(found[|found| - 1])]
  }

  function PrunedRows(found: seq<Cols>, columns: seq<Bytes>): seq<Row> {
    if found == [] then []
    else
      var n := |found| - 1;
      PrunedRows(found[..n], columns) + match NonEmpty(Kept(found[n], columns)) case Some(row) => [row] case None => []
  }

  /** The columns pushed into the lookup below the projection. */
  function Pushed(items: seq<Item>): Option<seq<Bytes>> {
    SomeUnlessEmpty(Dedup(ItemColumns(items)))
  }

  function LoadedRows(items: seq<Item>, found: seq<Cols>): seq<Row> {
    match Pushed(items) case None => WholeRows(found) case Some(columns) => PrunedRows(found, columns)
  }

  function Selected(env: Env, items: seq<Item>, rows: seq<Row>): Stream {
    Through(env, Projecting(items), rows)
  }

  lemma {:induction false} PlainColumns(items: seq<Item>, name: Bytes)
    requires PlainItems(items)
    ensures name in ItemColumns(items) <==> exists i :: 0 <= i < |items| && ColumnName(items[i].expr.table, items[i].expr.column) == name
  {
    if items != [] {
      var n := |items| - 1;
      PlainColumns(items[..n], name);
      assert ColumnsIn(items[n].expr) == [ColumnName(items[n].expr.table, items[n].expr.column)];
      if i :| 0 <= i < |items| && ColumnName(items[i].expr.table, items[i].expr.column) == name {
        if i < n { assert items[..n][i] == items[i]; }
      }
    }
  }

  /** The column is in the select list without a qualifier. */
  predicate Unqualified(items: seq<Item>, c: Bytes)
    requires PlainItems(items)
  {
    c in Unprefixed(items)
  }

  function Unprefixed(items: seq<Item>): set<Bytes>
    requires PlainItems(items)
  {
    set i | 0 <= i < |items| && items[i].expr.table.None? :: items[i].expr.column
  }

  lemma PushedHas(items: seq<Item>, c: Bytes)
    requires PlainItems(items) && items != [] && !Dotted(c)
    ensures Pushed(items).Some? && (c in Pushed(items).value <==> Unqualified(items, c))
  {
    PlainColumns(items, c);
    var name := ColumnName(items[0].expr.table, items[0].expr.column);
    PlainColumns(items, name);
    assert name in Dedup(ItemColumns(items));
    forall i | 0 <= i < |items|
      ensures ColumnName(items[i].expr.table, items[i].expr.column) == c <==> items[i].expr.table.None? && ItemColumn(items[i]) == c
    {
      if items[i].expr.table.Some? { assert Qualify(items[i].expr.table.value, items[i].expr.column)[|items[i].expr.table.value|] == DOT; }
    }
  }

  // ----- one row -----

  /** The row holds one of the columns that are asked for without a qualifier. */
  predicate Seen(items: seq<Item>, cols: Cols)
    requires PlainItems(items)
  {
    exists i :: 0 <= i < |items| && items[i].expr.table.None? && ItemColumn(items[i]) in Names(cols)
  }

  lemma {:induction false} KeptNames(cols: Cols, columns: seq<Bytes>)
    ensures Kept(cols, columns) != [] <==> exists j :: 0 <= j < |cols| && cols[j].0 in columns
  {
    if cols != [] {
      KeptNames(cols[1..], columns);
      assert forall j :: 1 <= j < |cols| ==> cols[j] == cols[1..][j - 1];
      assert forall j :: 0 <= j < |cols[1..]| ==> cols[1..][j] == cols[j + 1];
    }
  }

  lemma SeenKept(items: seq<Item>, cols: Cols)
    requires PlainItems(items) && items != [] && DotFreeNames(cols)
    ensures Pushed(items).Some? && (Kept(cols, Pushed(items).value) != [] <==> Seen(items, cols))
  {
    PushedHas(items, []);
    var columns := Pushed(items).value;
    KeptNames(cols, columns);
    forall j | 0 <= j < |cols| ensures cols[j].0 in columns <==> Unqualified(items, cols[j].0) { PushedHas(items, cols[j].0); }
    if i :| 0 <= i < |items| && items[i].expr.table.None? && ItemColumn(items[i]) in Names(cols) {
      var j :| 0 <= j < |cols| && Names(cols)[j] == ItemColumn(items[i]);
      assert Unqualified(items, cols[j].0);
    }
    if j :| 0 <= j < |cols| && cols[j].0 in columns {
      assert Names(cols)[j] == cols[j].0;
    }
  }

  lemma SelectOne(env: Env, items: seq<Item>, row: Row)
    ensures Selected(env, items, [row])
         == match ProjectRow(env, items, row) case Err(e) => Stream([], Some(e)) case Ok(out) => Stream([out], None)
    ensures Selected(env, items, []) == Stream([], None)
  {
    assert [row][..0] == [];
    assert Through(env, Projecting(items), [row][..0]) == Stream([], None);
  }

  lemma LoadOne(items: seq<Item>, cols: Cols)
    requires PlainItems(items) && items != []
    ensures Pushed(items).Some? && WholeRows([cols]) == [ToRow(cols)]
    ensures LoadedRows(items, [cols]) == match NonEmpty(Kept(cols, Pushed(items).value)) case Some(row) => [row] case None => []
  {
    PushedHas(items, []);
    assert [cols][..0] == [];
    assert WholeRows([cols][..0]) == [] && PrunedRows([cols][..0], Pushed(items).value) == [];
  }

  /**
   * `SELECT items FROM t WHERE key = 'literal'` when the lookup finds one row: the result is the
   * projection of the row if and only if the row holds one of the columns asked for without a
   * qualifier, and none of those asked for with one is hidden before the first that it lacks.
   */
  lemma LookupRowExact(env: Env, items: seq<Item>, cols: Cols)
    requires PlainItems(items) && items != [] && DotFreeNames(cols)
    ensures Pushed(items).Some?
    ensures Selected(env, items, LoadedRows(items, [cols])) == Selected(env, items, WholeRows([cols]))
       <==> Seen(items, cols) && Clear(items, cols, Pushed(items).value)
  {
    LoadOne(items, cols);
    SeenKept(items, cols);
    var kept := Kept(cols, Pushed(items).value);
    ProjectExact(env, items, cols, Pushed(items).value);
    SelectOne(env, items, ToRow(cols));
    SelectOne(env, items, kept);
  }

  // ----- any number of rows that hold all the columns -----

  predicate HoldsAll(items: seq<Item>, cols: Cols)
    requires PlainItems(items)
  {
    DotFreeNames(cols) && forall i :: 0 <= i < |items| ==> ItemColumn(items[i]) in Names(cols)
  }

  predicate AllUnqualified(items: seq<Item>)
    requires PlainItems(items)
  {
    forall i :: 0 <= i < |items| ==> Unqualified(items, ItemColumn(items[i]))
  }

  lemma {:induction false} ClearIff(items: seq<Item>, cols: Cols, columns: seq<Bytes>)
    requires PlainItems(items) && HoldsAll(items, cols)
    ensures Clear(items, cols, columns) <==> forall i :: 0 <= i < |items| ==> ItemColumn(items[i]) in columns
  {
    if items != [] {
      assert forall i :: 1 <= i < |items| ==> items[i] == items[1..][i - 1];
      assert forall i :: 0 <= i < |items[1..]| ==> items[1..][i] == items[i + 1];
      ClearIff(items[1..], cols, columns);
    }
  }

  lemma PushedAll(items: seq<Item>) returns (columns: seq<Bytes>)
    requires PlainItems(items) && items != []
    ensures Pushed(items) == Some(columns)
    ensures AllUnqualified(items) <==> AllPushed(items, columns)
  {
    PushedHas(items, []);
    columns := Pushed(items).value;
    forall i | 0 <= i < |items| ensures ItemColumn(items[i]) in columns <==> Unqualified(items, ItemColumn(items[i])) {
      PushedHas(items, ItemColumn(items[i]));
    }
  }

  predicate AllPushed(items: seq<Item>, columns: seq<Bytes>)
    requires PlainItems(items)
  {
    forall i :: 0 <= i < |items| ==> ItemColumn(items[i]) in columns
  }

  lemma {:induction false} ProjectSucceeds(env: Env, items: seq<Item>, cols: Cols)
    requires PlainItems(items) && HoldsAll(items, cols)
    ensures ProjectRow(env, items, ToRow(cols)).Ok?
  {
    if ProjectRow(env, items, ToRow(cols)).Err? { ProjectLacks(env, items, cols); }
  }

  lemma {:induction false} ProjectFails(env: Env, items: seq<Item>, cols: Cols, columns: seq<Bytes>, i: nat)
    requires PlainItems(items) && DotFreeNames(cols) && i < |items| && ItemColumn(items[i]) !in columns
    ensures ProjectRow(env, items, Kept(cols, columns)).Err?
  {
    PlainReads(env, items[0], cols, columns);
    if i > 0 {
      assert items[1..][i - 1] == items[i];
      ProjectFails(env, items[1..], cols, columns, i - 1);
    }
  }

  lemma LoadedWhole(env: Env, items: seq<Item>, cols: Cols, columns: seq<Bytes>)
    requires PlainItems(items) && items != [] && HoldsAll(items, cols)
    requires AllPushed(items, columns)
    ensures Kept(cols, columns) != [] && ProjectRow(env, items, Kept(cols, columns)) == ProjectRow(env, items, ToRow(cols))
  {
    ClearIff(items, cols, columns);
    ProjectExact(env, items, cols, columns);
    KeptNames(cols, columns);
    assert ItemColumn(items[0]) in Names(cols);
    var j :| 0 <= j < |cols| && Names(cols)[j] == ItemColumn(items[0]);
    assert cols[j].0 in columns;
  }

  lemma {:induction false} SelectedWhole(env: Env, items: seq<Item>, found: seq<Cols>, columns: seq<Bytes>)
    requires PlainItems(items) && items != [] && forall j :: 0 <= j < |found| ==> HoldsAll(items, found[j])
    requires AllPushed(items, columns)
    ensures Selected(env, items, PrunedRows(found, columns)) == Selected(env, items, WholeRows(found))
  {
    if found != [] {
      var n := |found| - 1;
      SelectedWhole(env, items, found[..n], columns);
      LoadedWhole(env, items, found[n], columns);
      SelectSnoc(env, items, WholeRows(found[..n]), ToRow(found[n]));
      SelectSnoc(env, items, PrunedRows(found[..n], columns), Kept(found[n], columns));
    }
  }

  lemma {:induction false} SelectedNone(env: Env, items: seq<Item>, found: seq<Cols>, columns: seq<Bytes>, i: nat)
    requires PlainItems(items) && i < |items| && ItemColumn(items[i]) !in columns
    requires forall j :: 0 <= j < |found| ==> DotFreeNames(found[j])
    ensures Selected(env, items, PrunedRows(found, columns)).rows == []
  {
    if found != [] {
      var n := |found| - 1;
      var before, kept := PrunedRows(found[..n], columns), Kept(found[n], columns);
      SelectedNone(env, items, found[..n], columns, i);
      if kept == [] {
        assert PrunedRows(found, columns) == before + [] == before;
      } else {
        assert PrunedRows(found, columns) == before + [kept];
        ProjectFails(env, items, found[n], columns, i);
        SelectSnoc(env, items, before, kept);
      }
    }
  }

  lemma {:induction false} WholeSucceeds(env: Env, items: seq<Item>, found: seq<Cols>)
    requires PlainItems(items) && forall j :: 0 <= j < |found| ==> HoldsAll(items, found[j])
    ensures var whole := Selected(env, items, WholeRows(found)); whole.error.None? && |whole.rows| == |found|
  {
    if found != [] {
      var n := |found| - 1;
      WholeSucceeds(env, items, found[..n]);
      ProjectSucceeds(env, items, found[n]);
      SelectSnoc(env, items, WholeRows(found[..n]), ToRow(found[n]));
    }
  }

  lemma SelectSnoc(env: Env, items: seq<Item>, rows: seq<Row>, row: Row)
    ensures var before := Selected(env, items, rows);
            Selected(env, items, rows + [row]) ==
              if before.error.Some? then before
              else match ProjectRow(env, items, row) case Err(e) => Stream(before.rows, Some(e)) case Ok(out) => Stream(before.rows + [out], None)
  {
    assert (rows + [row])[..|rows|] == rows;
  }

  /**
   * When the rows found hold all the columns: if and only if there is none, nothing is selected, or
   * every column selected is also selected without a qualifier.
   */
  lemma LookupUniform(env: Env, items: seq<Item>, found: seq<Cols>)
    requires PlainItems(items) && forall i :: 0 <= i < |found| ==> HoldsAll(items, found[i])
    ensures Selected(env, items, LoadedRows(items, found)) == Selected(env, items, WholeRows(found))
       <==> found == [] || items == [] || AllUnqualified(items)
  {
    if items == [] || found == [] {
      NothingLost(items, found);
    } else {
      var columns := PushedAll(items);
      SomeFound(env, items, found, columns);
    }
  }

  lemma NothingLost(items: seq<Item>, found: seq<Cols>)
    requires items == [] || found == []
    ensures LoadedRows(items, found) == WholeRows(found)
  {
    if items == [] {
      assert Dedup([]) == [];
      assert Pushed(items) == None;
    }
  }

  lemma SomeFound(env: Env, items: seq<Item>, found: seq<Cols>, columns: seq<Bytes>)
    requires PlainItems(items) && items != [] && found != [] && forall j :: 0 <= j < |found| ==> HoldsAll(items, found[j])
    ensures Selected(env, items, PrunedRows(found, columns)) == Selected(env, items, WholeRows(found)) <==> AllPushed(items, columns)
  {
    if AllPushed(items, columns) { SelectedWhole(env, items, found, columns); } else { NoneSeen(env, items, found, columns); }
  }

  lemma NoneSeen(env: Env, items: seq<Item>, found: seq<Cols>, columns: seq<Bytes>)
    requires PlainItems(items) && found != [] && !AllPushed(items, columns)
    requires forall j :: 0 <= j < |found| ==> HoldsAll(items, found[j])
    ensures Selected(env, items, PrunedRows(found, columns)) != Selected(env, items, WholeRows(found))
  {
    var i :| 0 <= i < |items| && ItemColumn(items[i]) !in columns;
    SelectedNone(env, items, found, columns, i);
    WholeSucceeds(env, items, found);
  }

  // ----- through the access paths -----

  function FoundCols(rows: Table, ids: seq<Bytes>): (found: seq<Cols>)
    requires Dml.AllIn(ids, rows)
    ensures |found| == |ids| && forall i :: 0 <= i < |ids| ==> found[i] == rows[ids[i]]
  {
    if ids == [] then [] else FoundCols(rows, ids[..|ids| - 1]) + [rows[ids[|ids| - 1]]]
  }

  lemma {:induction false} FoundWhole(rows: Table, ids: seq<Bytes>)
    requires Dml.AllIn(ids, rows)
    ensures AccessPaths.RowsOf(rows, ids) == WholeRows(FoundCols(rows, ids))
  {
    if ids != [] { FoundWhole(rows, ids[..|ids| - 1]); }
  }

  /** Ids that are not among the rows kept load nothing, pruned or not. */
  lemma {:induction false} LoadKeptPruned(rows: Table, ids: seq<Bytes>, keep: set<Bytes>, columns: seq<Bytes>)
    requires keep <= rows.Keys
    requires forall i :: 0 <= i < |ids| ==> (AccessPaths.RowAt(rows, ids[i]).Some? <==> ids[i] in keep)
    ensures Dml.AllIn(AccessPaths.KeepIn(ids, keep), rows)
    ensures LoadAllPruned(rows, ids, columns) == PrunedRows(FoundCols(rows, AccessPaths.KeepIn(ids, keep)), columns)
  {
    AccessPaths.KeepAllIn(rows, ids, keep);
    if ids != [] {
      var n := |ids| - 1;
      LoadKeptPruned(rows, ids[..n], keep, columns);
      var kept := AccessPaths.KeepIn(ids[..n], keep);
      if ids[n] in keep {
        FoundSnoc(rows, kept, ids[n]);
        PrunedSnoc(FoundCols(rows, kept), rows[ids[n]], columns);
      } else {
        assert kept + [] == kept && PrunedAt(rows, ids[n], columns) == None;
      }
    }
  }

  lemma FoundSnoc(rows: Table, ids: seq<Bytes>, id: Bytes)
    requires Dml.AllIn(ids, rows) && id in rows
    ensures Dml.AllIn(ids + [id], rows) && FoundCols(rows, ids + [id]) == FoundCols(rows, ids) + [rows[id]]
  {
    assert (ids + [id])[..|ids|] == ids;
  }

  lemma PrunedSnoc(found: seq<Cols>, cols: Cols, columns: seq<Bytes>)
    ensures PrunedRows(found + [cols], columns)
         == PrunedRows(found, columns) + match NonEmpty(Kept(cols, columns)) case Some(row) => [row] case None => []
  {
    assert (found + [cols])[..|found|] == found;
  }

  /** The rows a lookup returns with the pushed columns. */
  function RunPruned(tree: Tree, t: Bytes, a: AccessPaths.Access, columns: seq<Bytes>): seq<Row> {
    var rows := Rows(tree, t);
    match a
    case PkLookup(key) => (match PrunedAt(rows, key, columns) case Some(row) => [row] case None => [])
    case IndexLookup(c, key) => LoadAllPruned(rows, SortedKeys(Under(tree, AccessPaths.LookupPrefix(t, c, key))), columns)
    case ScanAndFilter => []
  }

  lemma IndexPruned(tree: Tree, t: Bytes, c: Bytes, key: Bytes, columns: seq<Bytes>)
    requires TableOk(tree, t) && c in Indexed(tree, t)
    ensures var rows := Rows(tree, t);
            var ids := SortedKeys(AccessPaths.Holding(rows, c, key));
            && Dml.AllIn(ids, rows)
            && LoadAllPruned(rows, SortedKeys(Under(tree, AccessPaths.LookupPrefix(t, c, key))), columns) == PrunedRows(FoundCols(rows, ids), columns)
  {
    var rows := Rows(tree, t);
    var found, hold := Under(tree, AccessPaths.LookupPrefix(t, c, key)), AccessPaths.Holding(rows, c, key);
    assert IndexExact(tree, t, c);
    forall id ensures id in found && id in rows <==> id in hold {
      AccessPaths.LookupUnder(tree, t, c, key, id);
      AccessPaths.EntryHolds(rows, c, key, id);
    }
    assert found * hold == hold;
    AccessPaths.KeepSorted(found, hold);
    var ids := SortedKeys(found);
    forall i | 0 <= i < |ids| ensures AccessPaths.RowAt(rows, ids[i]).Some? <==> ids[i] in hold {
      assert ids[i] in ids;
    }
    LoadKeptPruned(rows, ids, hold, columns);
  }

  lemma KeyPruned(rows: Table, pk: Bytes, key: Bytes, columns: seq<Bytes>)
    requires AccessPaths.KeyIsId(rows, pk)
    ensures var ids := SortedKeys(AccessPaths.Holding(rows, pk, key));
            && Dml.AllIn(ids, rows)
            && PrunedRows(FoundCols(rows, ids), columns) == match PrunedAt(rows, key, columns) case Some(row) => [row] case None => []
  {
    AccessPaths.PkLookupExact(rows, pk, key);
    var ids := SortedKeys(AccessPaths.Holding(rows, pk, key));
    if key in rows {
      assert |ids| == 1 && ids[0] in ids;
      var none: seq<Cols> := [];
      SameElements(FoundCols(rows, ids), none + [rows[key]]);
      PrunedSnoc(none, rows[key], columns);
    } else {
      assert FoundCols(rows, ids) == [];
    }
  }

  /** Whichever lookup the planner chooses, it loads the pushed columns of the rows that hold the literal's bytes. */
  lemma PrunedFinds(env: Env, tree: Tree, t: Bytes, e: Expr, columns: seq<Bytes>)
    requires TableOk(tree, t) && AccessPaths.Equality(e).Some?
    requires MarkerKey(t) in tree ==> AccessPaths.KeyIsId(Rows(tree, t), RecordBytes(tree[MarkerKey(t)]))
    requires !AccessPaths.ChooseAccess(env, tree, t, e).ScanAndFilter?
    ensures var (_, c, lit) := AccessPaths.Equality(e).value;
            var ids := SortedKeys(AccessPaths.Holding(Rows(tree, t), c, AccessPaths.LiteralBytes(env, lit)));
            && Dml.AllIn(ids, Rows(tree, t))
            && RunPruned(tree, t, AccessPaths.ChooseAccess(env, tree, t, e), columns) == PrunedRows(FoundCols(Rows(tree, t), ids), columns)
  {
    var (_, c, lit) := AccessPaths.Equality(e).value;
    var key := AccessPaths.LiteralBytes(env, lit);
    if AccessPaths.ChooseAccess(env, tree, t, e).PkLookup? {
      KeyPruned(Rows(tree, t), c, key, columns);
    } else {
      AccessPaths.MarkedIndexed(tree, t, c);
      IndexPruned(tree, t, c, key, columns);
    }
  }

  lemma ScanFinds(env: Env, tree: Tree, t: Bytes, e: Expr, c: Bytes, s: Bytes)
    requires LookupReady(tree, t, e, c, s)
    ensures var rows := Rows(tree, t);
            var ids := SortedKeys(AccessPaths.Holding(rows, c, s));
            Dml.AllIn(ids, rows) && FilterRows(env, AccessPaths.FullScan(rows), e) == Ok(WholeRows(FoundCols(rows, ids)))
  {
    var rows := Rows(tree, t);
    AccessPaths.FilterEquality(env, rows, e);
    AccessPaths.StringSatisfies(env, rows, c, s);
    FoundWhole(rows, SortedKeys(AccessPaths.Holding(rows, c, s)));
  }

  lemma FoundAmong(rows: Table, ids: seq<Bytes>) returns (found: seq<Cols>)
    requires Dml.AllIn(ids, rows)
    ensures found == FoundCols(rows, ids) && forall i :: 0 <= i < |found| ==> found[i] in rows.Values
  {
    found := FoundCols(rows, ids);
  }

  lemma LookupFinds(env: Env, tree: Tree, t: Bytes, e: Expr, c: Bytes, s: Bytes, columns: seq<Bytes>)
    requires TableOk(tree, t) && LookupReady(tree, t, e, c, s) && !AccessPaths.ChooseAccess(env, tree, t, e).ScanAndFilter?
    ensures var rows := Rows(tree, t);
            var ids := SortedKeys(AccessPaths.Holding(rows, c, s));
            && Dml.AllIn(ids, rows)
            && RunPruned(tree, t, AccessPaths.ChooseAccess(env, tree, t, e), columns) == PrunedRows(FoundCols(rows, ids), columns)
  {
    PrunedFinds(env, tree, t, e, columns);
    assert AccessPaths.LiteralBytes(env, StringLit(s)) == s;
  }

  /** The rows found, as the filtered scan and the pruned lookup return them. */
  lemma BothFind(env: Env, tree: Tree, t: Bytes, e: Expr, c: Bytes, s: Bytes, columns: seq<Bytes>) returns (found: seq<Cols>)
    requires TableOk(tree, t) && LookupReady(tree, t, e, c, s) && !AccessPaths.ChooseAccess(env, tree, t, e).ScanAndFilter?
    ensures FilterRows(env, AccessPaths.FullScan(Rows(tree, t)), e) == Ok(WholeRows(found))
    ensures RunPruned(tree, t, AccessPaths.ChooseAccess(env, tree, t, e), columns) == PrunedRows(found, columns)
    ensures forall i :: 0 <= i < |found| ==> found[i] in Rows(tree, t).Values
  {
    ScanFinds(env, tree, t, e, c, s);
    LookupFinds(env, tree, t, e, c, s, columns);
    found := FoundAmong(Rows(tree, t), SortedKeys(AccessPaths.Holding(Rows(tree, t), c, s)));
  }

  /** `column = 's'` on a table whose rows hold the column, with its key, if marked, in step. */
  predicate LookupReady(tree: Tree, t: Bytes, e: Expr, c: Bytes, s: Bytes) {
    && (MarkerKey(t) in tree ==> AccessPaths.KeyIsId(Rows(tree, t), RecordBytes(tree[MarkerKey(t)])))
    && AccessPaths.Equality(e).Some? && AccessPaths.Equality(e).value.1 == c && AccessPaths.Equality(e).value.2 == StringLit(s)
    && AccessPaths.Carries(Rows(tree, t), AccessPaths.Equality(e).value.0, c)
  }

  /**
   * `SELECT items FROM t WHERE column = 'literal'` through a lookup, on rows that hold the columns
   * selected: the pruned plan returns the projection of the filtered scan if and only if the scan
   * finds nothing or every column selected is also selected without a qualifier.
   */
  lemma SelectExact(env: Env, tree: Tree, t: Bytes, e: Expr, c: Bytes, s: Bytes, items: seq<Item>)
    requires TableOk(tree, t) && LookupReady(tree, t, e, c, s) && !AccessPaths.ChooseAccess(env, tree, t, e).ScanAndFilter?
    requires PlainItems(items) && items != [] && forall cols :: cols in Rows(tree, t).Values ==> HoldsAll(items, cols)
    ensures Pushed(items).Some?
    ensures var meant := FilterRows(env, AccessPaths.FullScan(Rows(tree, t)), e);
            var loaded := RunPruned(tree, t, AccessPaths.ChooseAccess(env, tree, t, e), Pushed(items).value);
            && meant.Ok?
            && (Selected(env, items, loaded) == Selected(env, items, meant.value) <==> meant.value == [] || AllUnqualified(items))
  {
    var columns := PushedAll(items);
    var found := BothFind(env, tree, t, e, c, s, columns);
    LookupUniform(env, items, found);
  }

  // ----- inputs -----

  /** `SELECT t.b FROM t WHERE id = '1'` on the row `id = 1, b = 2`: nothing is returned. */
  lemma QualifierLosesRow(env: Env)
    ensures var b: Bytes := [98];
            var items, cols: Cols := [Item(Column(Some([116]), b), None)], [([105, 100], [49]), (b, [50])];
            && Selected(env, items, WholeRows([cols])).rows == [[(b, Text([50]))]]
            && Selected(env, items, LoadedRows(items, [cols])) == Stream([], None)
  {
    var b: Bytes := [98];
    var items, cols: Cols := [Item(Column(Some([116]), b), None)], [([105, 100], [49]), (b, [50])];
    LoadOne(items, cols);
    SeenKept(items, cols);
    SelectOne(env, items, ToRow(cols));
    PlainReads(env, items[0], cols, []);
    LookupToRow(cols, b);
    assert cols[1..] == [(b, [50])] && cols[0].0[0] != b[0];
    assert Lookup(cols, b) == Some([50]);
    assert items[1..] == [] && ProjectRow(env, items[1..], ToRow(cols)) == Ok([]);
    var out: Row := [(b, Text([50]))];
    assert out + [] == out;
  }

  /** `SELECT b FROM t WHERE id = '1'` on a row without `b`: an unknown column, and nothing is returned instead. */
  lemma LackingLosesError(env: Env)
    ensures var b: Bytes := [98];
            var items, cols: Cols := [Item(Column(None, b), None)], [([105, 100], [49])];
            && Selected(env, items, WholeRows([cols])) == Stream([], Some(UnknownColumn(b)))
            && Selected(env, items, LoadedRows(items, [cols])) == Stream([], None)
  {
    var b: Bytes := [98];
    var items, cols: Cols := [Item(Column(None, b), None)], [([105, 100], [49])];
    LoadOne(items, cols);
    assert Names(cols) == [[105, 100]] && [105, 100][0] != b[0];
    SeenKept(items, cols);
    SelectOne(env, items, ToRow(cols));
    PlainReads(env, items[0], cols, []);
    HasField(cols, b);
  }
}
