/** One-pass aggregation over a table range, against assembling every row first. */
module StreamAgg {
  import opened ByteStrings
  import opened Values
  import opened Columns
  import opened Store
  import opened Expressions
  import opened Aggregation
  import T = TableScan

  /** One record of the table range: the key after the table prefix, and the value. */
  datatype Scanned = Scanned(rest: Bytes, record: Record)

  /** "value": the column of a record that is neither a packed row nor a cell. */
  const VALUE: Bytes := [118, 97, 108, 117, 101]

  function RowIdOf(e: Scanned): Bytes {
    Head(e.rest)
  }

  /** What the row loader makes of a record. */
  function ToEntry(e: Scanned): (r: T.Entry)
    ensures r.rowId == RowIdOf(e)
  {
    if !NulFree(e.rest) then T.CellEntry(Head(e.rest), Tail(e.rest), RecordBytes(e.record))
    else match e.record
      case Packed(cols) => T.PackedEntry(e.rest, cols)
      case Raw(b) => T.CellEntry(e.rest, VALUE, b)
  }

  function ToEntries(es: seq<Scanned>): (r: seq<T.Entry>)
    ensures |r| == |es| && forall i :: 0 <= i < |es| ==> r[i] == ToEntry(es[i])
  {
    seq(|es|, i requires 0 <= i < |es| => ToEntry(es[i]))
  }

  /** The rows of the table, assembled in full. */
  function FullRows(es: seq<Scanned>): seq<Row> {
    T.AssembleRows(T.Group(ToEntries(es), None))
  }

  /** Keys in storage order; every record is a packed row or a cell; column names have no dot. */
  ghost predicate RangeOk(es: seq<Scanned>) {
    && (forall i, j :: 0 <= i < j < |es| ==> Less(es[i].rest, es[j].rest))
    && (forall i :: 0 <= i < |es| ==> RecordOk(es[i]))
  }

  predicate RecordOk(e: Scanned) {
    if NulFree(e.rest)
    then e.record.Packed? && Distinct(Names(e.record.cols)) && forall i :: 0 <= i < |e.record.cols| ==> !Dotted(e.record.cols[i].0)
    else !Dotted(Tail(e.rest))
  }

  // ----- key order and row order -----

  /** Row-id order follows key order, so the records of one row are contiguous. */
  lemma RowIdsAscend(es: seq<Scanned>, i: nat, j: nat)
    requires RangeOk(es) && i <= j < |es|
    ensures Leq(RowIdOf(es[i]), RowIdOf(es[j]))
  {
    if i < j { HeadMonotone(es[i].rest, es[j].rest); }
  }

  lemma RowIdsContiguous(es: seq<Scanned>, i: nat, k: nat, j: nat)
    requires RangeOk(es) && i <= k <= j < |es| && RowIdOf(es[i]) == RowIdOf(es[j])
    ensures RowIdOf(es[k]) == RowIdOf(es[i])
  {
    RowIdsAscend(es, i, k);
    RowIdsAscend(es, k, j);
    Trichotomy(RowIdOf(es[i]), RowIdOf(es[k]));
  }

  /** The packed record of a row comes before its cells. */
  lemma PackedFirst(es: seq<Scanned>, i: nat, j: nat)
    requires RangeOk(es) && i < j < |es| && RowIdOf(es[i]) == RowIdOf(es[j])
    ensures !NulFree(es[j].rest)
  {
    if NulFree(es[j].rest) {
      PrefixLeq(es[j].rest, es[i].rest);
      Trichotomy(es[i].rest, es[j].rest);
    }
  }

  // ----- assembling rows in one pass -----

  /** Overwrite or append the needed columns of a packed record. */
  function AddColumns(row: Row, cols: Cols, needed: set<Bytes>): Row
    decreases |cols|
  {
    if cols == [] then row
    else AddColumns(if cols[0].0 in needed then SetColumn(row, cols[0].0, Text(cols[0].1)) else row, cols[1..], needed)
  }

  function AddRecord(row: Row, e: Scanned, needed: set<Bytes>): Row {
    if !NulFree(e.rest) then
      if Tail(e.rest) in needed then SetColumn(row, Tail(e.rest), Text(RecordBytes(e.record))) else row
    else match e.record
      case Packed(cols) => AddColumns(row, cols, needed)
      case Raw(b) => if VALUE in needed then SetColumn(row, VALUE, Text(b)) else row
  }

  /** Rows flushed so far, the row id being assembled, and its needed columns. */
  datatype Pass = Pass(done: seq<Row>, current: Option<Bytes>, row: Row)

  function Flush(p: Pass): seq<Row> {
    if p.current.Some? then p.done + [p.row] else p.done
  }

  function Advance(p: Pass, e: Scanned, needed: set<Bytes>): Pass {
    if p.current == Some(RowIdOf(e)) then p.(row := AddRecord(p.row, e, needed))
    else Pass(Flush(p), Some(RowIdOf(e)), AddRecord([], e, needed))
  }

  function OnePass(es: seq<Scanned>, needed: set<Bytes>): Pass {
    if es == [] then Pass([], None, [])
    else Advance(OnePass(es[..|es| - 1], needed), es[|es| - 1], needed)
  }

  // ----- one pass assembles the needed part of every row -----

  lemma {:induction false} KeepSetColumn(row: Row, c: Bytes, v: Value, bares: set<Bytes>)
    ensures KeepBare(SetColumn(row, c, v), bares) ==
            if Bare(c) in bares then SetColumn(KeepBare(row, bares), c, v) else KeepBare(row, bares)
  {
    if row == [] {
    } else if row[0].0 == c {
      assert SetColumn(row, c, v)[1..] == row[1..];
    } else {
      KeepSetColumn(row[1..], c, v, bares);
      assert SetColumn(row, c, v)[1..] == SetColumn(row[1..], c, v);
    }
  }

  lemma {:induction false} SetColumnFresh<V>(row: seq<(Bytes, V)>, c: Bytes, v: V)
    requires c !in Names(row)
    ensures SetColumn(row, c, v) == row + [(c, v)]
  {
    if row != [] {
      assert Names(row)[0] == row[0].0;
      forall i | 0 <= i < |row[1..]| ensures Names(row[1..])[i] != c { assert Names(row)[i + 1] != c; }
      SetColumnFresh(row[1..], c, v);
    }
  }

  lemma {:induction false} AddColumnsFresh(row: Row, cols: Cols, needed: set<Bytes>)
    requires Distinct(Names(cols)) && forall i :: 0 <= i < |cols| ==> !Dotted(cols[i].0) && cols[i].0 !in Names(row)
    ensures AddColumns(row, cols, needed) == row + KeepBare(ToRow(cols), needed)
    decreases |cols|
  {
    if cols != [] {
      var (c, cell) := cols[0];
      var rest := cols[1..];
      assert ToRow(cols)[1..] == ToRow(rest);
      assert Names(rest) == Names(cols)[1..];
      if c in needed {
        SetColumnFresh(row, c, Text(cell));
        var more := row + [(c, Text(cell))];
        assert Names(more) == Names(row) + [c];
        forall i | 0 <= i < |rest| ensures !Dotted(rest[i].0) && rest[i].0 !in Names(more) {
          assert Names(cols)[i + 1] != Names(cols)[0];
        }
        AddColumnsFresh(more, rest, needed);
        assert row + ([(c, Text(cell))] + KeepBare(ToRow(rest), needed)) == more + KeepBare(ToRow(rest), needed);
      } else {
        AddColumnsFresh(row, rest, needed);
      }
    }
  }

  lemma {:induction false} OverrideSnoc(row: Row, cells: Row, x: (Bytes, Value))
    ensures T.Override(row, cells + [x]) == SetColumn(T.Override(row, cells), x.0, x.1)
    decreases |cells|
  {
    if cells == [] {
      assert cells + [x] == [x] && [x][1..] == [];
    } else {
      assert (cells + [x])[1..] == cells[1..] + [x];
      OverrideSnoc(SetColumn(row, cells[0].0, cells[0].1), cells[1..], x);
    }
  }

  /** A further cell of a row, new among its cells, is written over the merged row. */
  lemma MergeCell(slot: T.Slot, c: Bytes, v: Value)
    requires c !in Names(slot.cells)
    ensures T.MergeRow(T.Slot(slot.packed, slot.cells + [(c, v)])) == SetColumn(T.MergeRow(slot), c, v)
  {
    if slot.packed.None? {
      SetColumnFresh(slot.cells, c, v);
    } else {
      OverrideSnoc(slot.packed.value, slot.cells, (c, v));
    }
  }

  /** The first record of a row. */
  lemma FirstRecord(g: T.Grouped, e: Scanned, needed: set<Bytes>)
    requires RecordOk(e) && RowIdOf(e) !in g
    ensures AddRecord([], e, needed) == KeepBare(T.MergeRow(T.Ingest(g, ToEntry(e), None)[RowIdOf(e)]), needed)
  {
    if NulFree(e.rest) {
      T.DecodeAll(e.record.cols);
      assert Names<Bytes, Value>([]) == [];
      AddColumnsFresh([], e.record.cols, needed);
    } else {
      MergeCell(T.EMPTY_SLOT, Tail(e.rest), Text(RecordBytes(e.record)));
      KeepSetColumn([], Tail(e.rest), Text(RecordBytes(e.record)), needed);
    }
  }

  /** A later record of the row: a cell. */
  lemma NextRecord(g: T.Grouped, e: Scanned, row: Row, needed: set<Bytes>)
    requires RecordOk(e) && RowIdOf(e) in g && !NulFree(e.rest)
    requires Tail(e.rest) !in Names(g[RowIdOf(e)].cells)
    requires row == KeepBare(T.MergeRow(g[RowIdOf(e)]), needed)
    ensures AddRecord(row, e, needed) == KeepBare(T.MergeRow(T.Ingest(g, ToEntry(e), None)[RowIdOf(e)]), needed)
  {
    var slot := g[RowIdOf(e)];
    MergeCell(slot, Tail(e.rest), Text(RecordBytes(e.record)));
    KeepSetColumn(T.MergeRow(slot), Tail(e.rest), Text(RecordBytes(e.record)), needed);
  }

  lemma SortedSnoc(keys: set<Bytes>, id: Bytes)
    requires forall k :: k in keys ==> Less(k, id)
    ensures SortedKeys(keys + {id}) == SortedKeys(keys) + [id]
  {
    var s, t := SortedKeys(keys), SortedKeys(keys + {id});
    SortedAscending(keys);
    SortedAscending(keys + {id});
    assert forall i :: 0 <= i < |s| ==> s[i] in s;
    AscendingUnique(s + [id], t);
  }

  /** A row with a greater id than all others is assembled last. */
  lemma AssembleSnoc(rest: T.Grouped, id: Bytes, slot: T.Slot)
    requires id !in rest && forall k :: k in rest ==> Less(k, id)
    ensures T.AssembleRows(rest[id := slot]) == T.AssembleRows(rest) + [T.MergeRow(slot)]
  {
    var g := rest[id := slot];
    assert g.Keys == rest.Keys + {id};
    SortedSnoc(rest.Keys, id);
    RowsForSnoc(rest, SortedKeys(rest.Keys), id, slot);
  }

  lemma RowsForSnoc(rest: T.Grouped, ids: seq<Bytes>, id: Bytes, slot: T.Slot)
    requires id !in rest && forall x :: x in ids ==> x in rest
    ensures T.RowsFor(rest[id := slot], ids + [id]) == T.RowsFor(rest, ids) + [T.MergeRow(slot)]
  {
    var a, b := T.RowsFor(rest[id := slot], ids + [id]), T.RowsFor(rest, ids) + [T.MergeRow(slot)];
    forall i | 0 <= i < |ids| ensures a[i] == b[i] {
      assert ids[i] in ids;
    }
    SameElements(a, b);
  }

  function IdsOf(es: seq<Scanned>): set<Bytes> {
    if es == [] then {} else IdsOf(es[..|es| - 1]) + {RowIdOf(es[|es| - 1])}
  }

  lemma {:induction false} FindId(es: seq<Scanned>, id: Bytes) returns (j: nat)
    requires id in IdsOf(es)
    ensures j < |es| && RowIdOf(es[j]) == id
  {
    j := |es| - 1;
    if RowIdOf(es[j]) != id { j := FindId(es[..j], id); }
  }

  /** The grouping of scanned records holds exactly their row ids. */
  lemma {:induction false} GroupIds(es: seq<Scanned>)
    ensures T.Group(ToEntries(es), None).Keys == IdsOf(es)
  {
    if es != [] {
      GroupSnoc(es);
      GroupIds(es[..|es| - 1]);
    }
  }

  lemma GroupSnoc(es: seq<Scanned>)
    requires es != []
    ensures var n := |es| - 1;
            T.Group(ToEntries(es), None) == T.Ingest(T.Group(ToEntries(es[..n]), None), ToEntry(es[n]), None)
  {
    var n := |es| - 1;
    assert ToEntries(es)[..n] == ToEntries(es[..n]);
  }

  /** Every gathered cell comes from a record of its row under its column name. */
  lemma {:induction false} GroupCells(es: seq<Scanned>, id: Bytes)
    requires forall i :: 0 <= i < |es| ==> RecordOk(es[i])
    ensures var g := T.Group(ToEntries(es), None);
            id in g ==> forall c :: c in Names(g[id].cells) ==> exists j :: 0 <= j < |es| && es[j].rest == Seg(id, c)
  {
    if es != [] {
      var n := |es| - 1;
      GroupSnoc(es);
      GroupCells(es[..n], id);
      var g, after := T.Group(ToEntries(es[..n]), None), T.Group(ToEntries(es), None);
      if id in after {
        forall c | c in Names(after[id].cells) ensures exists j :: 0 <= j < |es| && es[j].rest == Seg(id, c) {
          var cells := T.SlotOf(g, id).cells;
          if c in Names(cells) {
            var j :| 0 <= j < n && es[..n][j].rest == Seg(id, c);
            assert es[j].rest == Seg(id, c);
          } else {
            NewCell(cells, after[id].cells, c, es[n]);
            assert es[n].rest == Seg(id, c);
          }
        }
      }
    }
  }

  lemma NewCell(before: Row, after: Row, c: Bytes, e: Scanned)
    requires RecordOk(e)
    requires after == before || (!NulFree(e.rest) && after == before + [(Tail(e.rest), Text(RecordBytes(e.record)))])
    requires c in Names(after) && c !in Names(before)
    ensures !NulFree(e.rest) && c == Tail(e.rest)
  {
    if after != before {
      assert Names(after) == Names(before) + [Tail(e.rest)];
    }
  }

  // ----- the pass invariant -----

  /** The pass is on row `id` of the grouping `g`, and has flushed all its other rows. */
  predicate OnRow(p: Pass, g: T.Grouped, id: Bytes, needed: set<Bytes>) {
    && p.current == Some(id) && id in g
    && p.row == KeepBare(T.MergeRow(g[id]), needed)
    && p.done == KeepAll(T.AssembleRows(g - {id}), needed)
  }

  lemma FlushRow(p: Pass, rest: T.Grouped, id: Bytes, slot: T.Slot, needed: set<Bytes>)
    requires p.current == Some(id) && p.row == KeepBare(T.MergeRow(slot), needed)
    requires p.done == KeepAll(T.AssembleRows(rest), needed)
    requires id !in rest && forall k :: k in rest ==> Less(k, id)
    ensures Flush(p) == KeepAll(T.AssembleRows(rest[id := slot]), needed)
  {
    AssembleSnoc(rest, id, slot);
    KeepAllSnoc(T.AssembleRows(rest), T.MergeRow(slot), needed);
  }

  lemma RemoveThenPut(g: T.Grouped, id: Bytes)
    requires id in g
    ensures (g - {id})[id := g[id]] == g
  {
  }

  lemma IngestOthers(g: T.Grouped, e: T.Entry)
    ensures T.Ingest(g, e, None) - {e.rowId} == g - {e.rowId}
    ensures e.rowId !in g ==> g - {e.rowId} == g
  {
  }

  /** What the pass would have produced if the range ended here. */
  lemma FlushAll(p: Pass, g: T.Grouped, id: Bytes, needed: set<Bytes>)
    requires OnRow(p, g, id, needed) && forall k :: k in g - {id} ==> Less(k, id)
    ensures Flush(p) == KeepAll(T.AssembleRows(g), needed)
  {
    FlushRow(p, g - {id}, id, g[id], needed);
    RemoveThenPut(g, id);
  }

  lemma StepNew(p: Pass, g: T.Grouped, e: Scanned, needed: set<Bytes>)
    requires RecordOk(e) && RowIdOf(e) !in g && p.current != Some(RowIdOf(e))
    requires Flush(p) == KeepAll(T.AssembleRows(g), needed)
    ensures OnRow(Advance(p, e, needed), T.Ingest(g, ToEntry(e), None), RowIdOf(e), needed)
  {
    FirstRecord(g, e, needed);
    IngestOthers(g, ToEntry(e));
  }

  lemma StepSame(p: Pass, g: T.Grouped, e: Scanned, needed: set<Bytes>)
    requires RecordOk(e) && OnRow(p, g, RowIdOf(e), needed)
    requires !NulFree(e.rest) && Tail(e.rest) !in Names(g[RowIdOf(e)].cells)
    ensures OnRow(Advance(p, e, needed), T.Ingest(g, ToEntry(e), None), RowIdOf(e), needed)
  {
    NextRecord(g, e, p.row, needed);
    IngestOthers(g, ToEntry(e));
  }

  lemma LastIdGreatest(es: seq<Scanned>)
    requires es != [] && RangeOk(es)
    ensures var id := RowIdOf(es[|es| - 1]);
            forall k :: k in T.Group(ToEntries(es), None) - {id} ==> Less(k, id)
  {
    var n := |es| - 1;
    GroupIds(es);
    forall k | k in IdsOf(es) - {RowIdOf(es[n])} ensures Less(k, RowIdOf(es[n])) {
      var j := FindId(es, k);
      RowIdsAscend(es, j, n);
    }
  }

  lemma NewIdFresh(es: seq<Scanned>)
    requires es != [] && RangeOk(es)
    requires |es| == 1 || RowIdOf(es[|es| - 2]) != RowIdOf(es[|es| - 1])
    ensures RowIdOf(es[|es| - 1]) !in IdsOf(es[..|es| - 1])
  {
    var n := |es| - 1;
    if RowIdOf(es[n]) in IdsOf(es[..n]) {
      var j := FindId(es[..n], RowIdOf(es[n]));
      RowIdsContiguous(es, j, n - 1, n);
    }
  }

  lemma NextCellFresh(es: seq<Scanned>)
    requires |es| > 1 && RangeOk(es) && RowIdOf(es[|es| - 2]) == RowIdOf(es[|es| - 1])
    ensures var e, g := es[|es| - 1], T.Group(ToEntries(es[..|es| - 1]), None);
            !NulFree(e.rest) && (RowIdOf(e) in g ==> Tail(e.rest) !in Names(g[RowIdOf(e)].cells))
  {
    var n := |es| - 1;
    var e := es[n];
    PackedFirst(es, n - 1, n);
    GroupCells(es[..n], RowIdOf(e));
    forall j | 0 <= j < n ensures es[..n][j].rest != Seg(RowIdOf(e), Tail(e.rest)) {
      Trichotomy(es[j].rest, es[n].rest);
    }
  }

  lemma NextRow(es: seq<Scanned>, p: Pass, needed: set<Bytes>)
    requires |es| > 1 && RangeOk(es)
    requires var init := es[..|es| - 1];
             OnRow(p, T.Group(ToEntries(init), None), RowIdOf(init[|init| - 1]), needed)
    ensures OnRow(Advance(p, es[|es| - 1], needed), T.Group(ToEntries(es), None), RowIdOf(es[|es| - 1]), needed)
  {
    var n := |es| - 1;
    var (init, e) := (es[..n], es[n]);
    var g := T.Group(ToEntries(init), None);
    GroupSnoc(es);
    if RowIdOf(es[n - 1]) == RowIdOf(e) {
      NextCellFresh(es);
      StepSame(p, g, e, needed);
    } else {
      AllFlushed(es, p, needed);
      StepNew(p, g, e, needed);
    }
  }

  /** At a new row id the pass holds every earlier row. */
  lemma AllFlushed(es: seq<Scanned>, p: Pass, needed: set<Bytes>)
    requires |es| > 1 && RangeOk(es) && RowIdOf(es[|es| - 2]) != RowIdOf(es[|es| - 1])
    requires var init := es[..|es| - 1];
             OnRow(p, T.Group(ToEntries(init), None), RowIdOf(init[|init| - 1]), needed)
    ensures var g := T.Group(ToEntries(es[..|es| - 1]), None);
            RowIdOf(es[|es| - 1]) !in g && Flush(p) == KeepAll(T.AssembleRows(g), needed)
  {
    var init := es[..|es| - 1];
    NewIdFresh(es);
    GroupIds(init);
    LastIdGreatest(init);
    FlushAll(p, T.Group(ToEntries(init), None), RowIdOf(init[|init| - 1]), needed);
  }

  lemma {:induction false} PassInvariant(es: seq<Scanned>, needed: set<Bytes>)
    requires es != [] && RangeOk(es)
    ensures OnRow(OnePass(es, needed), T.Group(ToEntries(es), None), RowIdOf(es[|es| - 1]), needed)
  {
    var n := |es| - 1;
    if n == 0 {
      GroupSnoc(es);
      var g := T.Group(ToEntries(es[..0]), None);
      assert Flush(OnePass(es[..0], needed)) == KeepAll(T.AssembleRows(g), needed) by { assert SortedKeys(g.Keys) == []; }
      StepNew(OnePass(es[..0], needed), g, es[0], needed);
    } else {
      PassInvariant(es[..n], needed);
      NextRow(es, OnePass(es[..n], needed), needed);
    }
  }

  /** One pass over the range yields the needed columns of every row, in row order. */
  lemma OnePassRows(es: seq<Scanned>, needed: set<Bytes>)
    requires RangeOk(es)
    ensures Flush(OnePass(es, needed)) == KeepAll(FullRows(es), needed)
  {
    var g := T.Group(ToEntries(es), None);
    if es == [] {
      assert T.AssembleRows(g) == [] by { assert SortedKeys(g.Keys) == []; }
    } else {
      PassInvariant(es, needed);
      LastIdGreatest(es);
      FlushAll(OnePass(es, needed), g, RowIdOf(es[|es| - 1]), needed);
    }
  }

  // ----- the streaming operator -----

  /** Bare names of the columns the pass has to extract. */
  function Needed(pred: Option<Expr>, groupBy: seq<Bytes>, aggs: seq<Agg>): (b: set<Bytes>)
    ensures Covers(b, ReadColumns(pred, groupBy, aggs))
  {
    var cols := ReadColumns(pred, groupBy, aggs);
    set i | 0 <= i < |cols| :: Bare(cols[i])
  }

  /** Flushed rows are never revised by later records. */
  lemma {:induction false} DonePrefix(es: seq<Scanned>, i: nat, needed: set<Bytes>)
    requires i <= |es|
    ensures OnePass(es[..i], needed).done <= OnePass(es, needed).done
    decreases |es| - i
  {
    if i == |es| {
      TakeAll(es);
    } else {
      TakeStep(es, i);
      DonePrefix(es, i + 1, needed);
      DoneStep(OnePass(es[..i], needed), es[i], needed);
    }
  }

  lemma DoneStep(p: Pass, e: Scanned, needed: set<Bytes>)
    ensures p.done <= Advance(p, e, needed).done
  {
  }

  lemma PrefixStops(env: Env, done: seq<Row>, rows: seq<Row>, pred: Option<Expr>, groupBy: seq<Bytes>, aggs: seq<Agg>)
    requires done <= rows && FoldRows(env, done, pred, groupBy, aggs).Err?
    ensures FoldRows(env, rows, pred, groupBy, aggs) == FoldRows(env, done, pred, groupBy, aggs)
  {
    assert rows[..|done|] == done;
    FoldStops(env, rows, pred, groupBy, aggs, |done|);
  }

  /** Filter and fold one assembled row. */
  method FlushInto(env: Env, groups: Groups, row: Row, pred: Option<Expr>, groupBy: seq<Bytes>, aggs: seq<Agg>, ghost done: seq<Row>)
    returns (r: Result<Groups>)
    requires FoldRows(env, done, pred, groupBy, aggs) == Ok(groups)
    ensures r == FoldRows(env, done + [row], pred, groupBy, aggs)
  {
    assert (done + [row])[..|done|] == done;
    var keep := Keeps(env, pred, row);
    if keep.Err? { return Err(keep.error); }
    r := Ok(if keep.value then FoldRow(env, groups, row, groupBy, aggs) else groups);
  }

  /** The streaming pass: assemble each row's needed columns, filter it, fold it, forget it. */
  method StreamFold(env: Env, es: seq<Scanned>, pred: Option<Expr>, groupBy: seq<Bytes>, aggs: seq<Agg>, needed: set<Bytes>)
    returns (r: Result<Groups>)
    ensures r == FoldRows(env, Flush(OnePass(es, needed)), pred, groupBy, aggs)
  {
    var groups: Groups := map[];
    var current: Option<Bytes> := None;
    var row: Row := [];
    ghost var done: seq<Row> := [];
    for i := 0 to |es|
      invariant OnePass(es[..i], needed) == Pass(done, current, row)
      invariant FoldRows(env, done, pred, groupBy, aggs) == Ok(groups)
    {
      TakeStep(es, i);
      DonePrefix(es, i + 1, needed);
      if current != Some(RowIdOf(es[i])) {
        if current.Some? {
          var flushed := FlushInto(env, groups, row, pred, groupBy, aggs, done);
          done := done + [row];
          if flushed.Err? {
            assert done <= Flush(OnePass(es, needed));
            PrefixStops(env, done, Flush(OnePass(es, needed)), pred, groupBy, aggs);
            return flushed;
          }
          groups := flushed.value;
        }
        row := [];
        current := Some(RowIdOf(es[i]));
      }
      row := AddRecord(row, es[i], needed);
    }
    TakeAll(es);
    if current.Some? {
      r := FlushInto(env, groups, row, pred, groupBy, aggs, done);
    } else {
      r := Ok(groups);
    }
  }

  /** Key-only counting: one more row at each change of row id. */
  method CountRows(es: seq<Scanned>) returns (n: nat)
    requires RangeOk(es)
    ensures n == |FullRows(es)|
  {
    n := 0;
    var last: Option<Bytes> := None;
    for i := 0 to |es|
      invariant last == OnePass(es[..i], {}).current
      invariant n == |Flush(OnePass(es[..i], {}))|
    {
      TakeStep(es, i);
      if last != Some(RowIdOf(es[i])) {
        n := n + 1;
        last := Some(RowIdOf(es[i]));
      }
    }
    TakeAll(es);
    OnePassRows(es, {});
  }

  /** Slots that have only counted rows. */
  function Counted(aggs: seq<Agg>, n: nat): (r: seq<AggSlot>)
    ensures |r| == |aggs|
  {
    seq(|aggs|, i => EMPTY_SLOT.(countStar := n))
  }

  lemma CountOne(env: Env, aggs: seq<Agg>, n: nat, row: Row)
    requires forall i :: 0 <= i < |aggs| ==> aggs[i].1.CountStar?
    ensures UpdateSlots(env, Counted(aggs, n), aggs, row) == Counted(aggs, n + 1)
    ensures FreshSlots(aggs) == Counted(aggs, 0)
  {
    SameElements(UpdateSlots(env, Counted(aggs, n), aggs, row), Counted(aggs, n + 1));
    SameElements(FreshSlots(aggs), Counted(aggs, 0));
  }

  lemma {:induction false} CountStars(env: Env, rows: seq<Row>, aggs: seq<Agg>)
    requires forall i :: 0 <= i < |aggs| ==> aggs[i].1.CountStar?
    ensures FoldRows(env, rows, None, [], aggs) == Ok(if rows == [] then map[] else map[[] := Counted(aggs, |rows|)])
  {
    if rows != [] {
      var n := |rows| - 1;
      CountStars(env, rows[..n], aggs);
      assert KeyOf(env, rows[n], []) == [];
      CountOne(env, aggs, n, rows[n]);
      var one: Groups := map[[] := Counted(aggs, n)];
      assert one[[] := Counted(aggs, n + 1)] == map[[] := Counted(aggs, n + 1)];
    }
  }

  lemma {:induction false} NothingRead(aggs: seq<Agg>)
    requires AggColumns(aggs) == []
    ensures forall i :: 0 <= i < |aggs| ==> aggs[i].1.CountStar?
  {
    if aggs != [] { NothingRead(aggs[..|aggs| - 1]); }
  }

  lemma FirstRead(pred: Option<Expr>, groupBy: seq<Bytes>, aggs: seq<Agg>)
    ensures var cols := ReadColumns(pred, groupBy, aggs);
            cols == [] || Bare(cols[0]) in Needed(pred, groupBy, aggs)
  {
  }

  lemma CountGlobal(aggs: seq<Agg>)
    ensures WithGlobal(map[], [], aggs) == map[[] := Counted(aggs, 0)]
  {
    SameElements(FreshSlots(aggs), Counted(aggs, 0));
  }

  /** The key-only path: nothing to read, so the aggregates are all COUNT(*). */
  lemma CountPath(env: Env, rows: seq<Row>, aggs: seq<Agg>)
    requires Needed(None, [], aggs) == {}
    ensures Aggregate(env, rows, None, [], aggs) == Ok(map[[] := Counted(aggs, |rows|)])
  {
    FirstRead(None, [], aggs);
    assert ReadColumns(None, [], aggs) == AggColumns(aggs);
    NothingRead(aggs);
    CountStars(env, rows, aggs);
    CountGlobal(aggs);
    if rows != [] {
      var one: Groups := map[[] := Counted(aggs, |rows|)];
      assert [] in one;
      assert WithGlobal(one, [], aggs) == one;
    }
  }

  /** The slow path: load every row, filter, aggregate. */
  function Materialised(env: Env, rows: seq<Row>, pred: Option<Expr>, groupBy: seq<Bytes>, aggs: seq<Agg>): Result<NamedGroups> {
    match FilterWhere(env, rows, pred) case Err(e) => Err(e) case Ok(kept) => Ok(NamedAggregate(env, kept, groupBy, aggs))
  }

  /** What the fast path returns, filed under the output names. */
  predicate SameOutcome(r: Result<Groups>, m: Result<NamedGroups>, aggs: seq<Agg>) {
    match (r, m)
    case (Ok(groups), Ok(named)) => GroupsOk(groups, aggs) && ByName(groups, aggs) == named
    case (Err(e), Err(f)) => e == f
    case _ => false
  }

  lemma AggregateIsMaterialised(env: Env, rows: seq<Row>, pred: Option<Expr>, groupBy: seq<Bytes>, aggs: seq<Agg>)
    requires Distinct(Names(aggs))
    ensures SameOutcome(Aggregate(env, rows, pred, groupBy, aggs), Materialised(env, rows, pred, groupBy, aggs), aggs)
  {
    FoldAfterFilter(env, rows, pred, groupBy, aggs);
    var kept := FilterWhere(env, rows, pred);
    if kept.Ok? { NamedIsPositional(env, kept.value, groupBy, aggs); }
  }

  /**
   * The fast path equals the slow one: the same accumulators for every group, or the same error, as
   * loading every row, filtering, and aggregating by output name.
   */
  method StreamAggregate(env: Env, es: seq<Scanned>, pred: Option<Expr>, groupBy: seq<Bytes>, aggs: seq<Agg>)
    returns (r: Result<Groups>)
    requires RangeOk(es)
    ensures r == Aggregate(env, FullRows(es), pred, groupBy, aggs)
    ensures Distinct(Names(aggs)) ==> SameOutcome(r, Materialised(env, FullRows(es), pred, groupBy, aggs), aggs)
  {
    if Distinct(Names(aggs)) { AggregateIsMaterialised(env, FullRows(es), pred, groupBy, aggs); }
    var needed := Needed(pred, groupBy, aggs);
    if needed == {} && pred.None? && groupBy == [] {
      var n := CountRows(es);
      CountPath(env, FullRows(es), aggs);
      return Ok(map[[] := Counted(aggs, n)]);
    }
    var folded := StreamFold(env, es, pred, groupBy, aggs, needed);
    OnePassRows(es, needed);
    FoldLocal(env, FullRows(es), pred, groupBy, aggs, needed);
    if folded.Err? { return Err(folded.error); }
    r := Ok(WithGlobal(folded.value, groupBy, aggs));
  }
}
