/** Secondary indexes over the key-value store: catalogue, building and point lookup. */
module SecondaryIndex {
  import opened ByteStrings
  import opened Values
  import opened Store
  import opened KeySpace
  import opened RowStore
  import opened IndexState

  method IndexedColumns(tree: Tree, t: Bytes) returns (cols: seq<Bytes>)
    ensures cols == SortedKeys(Indexed(tree, t))
  {
    var p := MetaPrefix(t);
    assert Bounded(p) by { assert p[|IDX_META|] == NUL; }
    cols := ScanSuffixes(tree, p);
  }

  method PutEntry(tree: Tree, t: Bytes, col: Bytes, cell: Bytes, id: Bytes) returns (after: Tree)
    requires SafeTable(t) && NulFree(col)
    ensures EntryChange(tree, after, t, col, {}, {Seg(cell, id)})
  {
    EntryPut(tree, t, col, cell, id);
    after := tree[EntryKey(t, col, cell, id) := Raw([])];
  }

  // ----- CREATE INDEX -----

  /** The in-memory index: each indexed cell with the ids of the rows that hold it. */
  type CellIndex = map<Bytes, seq<Bytes>>

  function AddPair(index: CellIndex, cell: Bytes, id: Bytes): CellIndex {
    index[cell := (if cell in index then index[cell] else []) + [id]]
  }

  function Pairs(index: CellIndex): set<Bytes> {
    set cell, id | cell in index && id in index[cell] :: Seg(cell, id)
  }

  /** One scanned record: a legacy cell of the column, or the column of a packed row. */
  function IndexRecord(index: CellIndex, c: Bytes, rest: Bytes, r: Record): CellIndex {
    if !NulFree(rest) then
      if Tail(rest) == c then AddPair(index, RecordBytes(r), Head(rest)) else index
    else if r.Packed? && Lookup(r.cols, c).Some? then AddPair(index, Lookup(r.cols, c).value, rest)
    else index
  }

  function IndexRecords(tree: Tree, t: Bytes, c: Bytes, rests: seq<Bytes>): CellIndex {
    if rests == [] then map[]
    else
      var n := |rests| - 1;
      var index := IndexRecords(tree, t, c, rests[..n]);
      var k := PackedKey(t, rests[n]);
      if k in tree then IndexRecord(index, c, rests[n], tree[k]) else index
  }

  lemma PairsAdd(index: CellIndex, cell: Bytes, id: Bytes)
    ensures Pairs(AddPair(index, cell, id)) == Pairs(index) + {Seg(cell, id)}
  {
    var after := AddPair(index, cell, id);
    forall e ensures e in Pairs(after) <==> e in Pairs(index) || e == Seg(cell, id) {
      if e in Pairs(index) {
        var x, y :| x in index && y in index[x] && e == Seg(x, y);
        assert x in after && y in after[x];
      }
      if e == Seg(cell, id) {
        assert after[cell][|after[cell]| - 1] == id;
        assert cell in after && id in after[cell];
      }
      if e in Pairs(after) {
        var x, y :| x in after && y in after[x] && e == Seg(x, y);
        assert (x in index && y in index[x]) || (x == cell && y == id);
      }
    }
  }

  /** Scanning some rows of a packed table collects their pairs. */
  lemma {:induction false} IndexRecordsExact(tree: Tree, t: Bytes, c: Bytes, ids: seq<Bytes>)
    requires PackedTable(tree, t)
    requires forall i :: 0 <= i < |ids| ==> ids[i] in Rows(tree, t)
    ensures forall e :: e in Pairs(IndexRecords(tree, t, c, ids)) <==>
      exists i :: 0 <= i < |ids| && e in EntryOf(Rows(tree, t)[ids[i]], c, ids[i])
  {
    if ids != [] {
      var n := |ids| - 1;
      var rows := Rows(tree, t);
      IndexRecordsExact(tree, t, c, ids[..n]);
      RowsIff(tree, t, ids[n]);
      var index := IndexRecords(tree, t, c, ids[..n]);
      if Lookup(rows[ids[n]], c).Some? { PairsAdd(index, Lookup(rows[ids[n]], c).value, ids[n]); }
      forall e ensures e in Pairs(IndexRecords(tree, t, c, ids)) <==>
        exists i :: 0 <= i < |ids| && e in EntryOf(rows[ids[i]], c, ids[i])
      {
        assert e in Pairs(IndexRecords(tree, t, c, ids)) <==> e in Pairs(index) || e in EntryOf(rows[ids[n]], c, ids[n]);
      }
    }
  }

  lemma IndexRecordsAll(tree: Tree, t: Bytes, c: Bytes)
    requires PackedTable(tree, t)
    ensures Pairs(IndexRecords(tree, t, c, SortedKeys(Under(tree, TablePrefix(t))))) == IndexOf(Rows(tree, t), c)
  {
    var rows := Rows(tree, t);
    RowsAreUnder(tree, t);
    var ids := SortedKeys(rows.Keys);
    assert forall i :: 0 <= i < |ids| ==> ids[i] in ids;
    IndexRecordsExact(tree, t, c, ids);
    forall e ensures e in Pairs(IndexRecords(tree, t, c, ids)) <==> e in IndexOf(rows, c) {
      if e in IndexOf(rows, c) {
        var id :| id in rows && e in EntryOf(rows[id], c, id);
        assert id in ids;
      }
    }
  }

  method CollectIndex(tree: Tree, t: Bytes, c: Bytes) returns (index: CellIndex)
    ensures index == IndexRecords(tree, t, c, SortedKeys(Under(tree, TablePrefix(t))))
  {
    var p := TablePrefix(t);
    assert Bounded(p) by { assert p[|t|] == NUL; }
    var rests := ScanSuffixes(tree, p);
    index := map[];
    for i := 0 to |rests|
      invariant index == IndexRecords(tree, t, c, rests[..i])
    {
      TakeStep(rests, i);
      var k := PackedKey(t, rests[i]);
      if k in tree {
        index := IndexRecord(index, c, rests[i], tree[k]);
      }
    }
    TakeAll(rests);
  }

  function IdPairs(cell: Bytes, ids: seq<Bytes>): set<Bytes> {
    set id | id in ids :: Seg(cell, id)
  }

  method PersistCell(tree: Tree, t: Bytes, c: Bytes, cell: Bytes, ids: seq<Bytes>) returns (after: Tree)
    requires SafeTable(t) && NulFree(c)
    ensures EntryChange(tree, after, t, c, {}, IdPairs(cell, ids))
  {
    after := tree;
    for i := 0 to |ids|
      invariant EntryChange(tree, after, t, c, {}, IdPairs(cell, ids[..i]))
    {
      ghost var mid := after;
      after := PutEntry(after, t, c, cell, ids[i]);
      EntryChangeAdds(tree, mid, after, t, c, IdPairs(cell, ids[..i]), {Seg(cell, ids[i])});
      TakeStep(ids, i);
      assert IdPairs(cell, ids[..i] + [ids[i]]) == IdPairs(cell, ids[..i]) + {Seg(cell, ids[i])};
    }
    TakeAll(ids);
  }

  /** Write one entry per indexed pair, whatever the order of the cells. */
  method PersistEntries(tree: Tree, t: Bytes, c: Bytes, index: CellIndex) returns (after: Tree)
    requires SafeTable(t) && NulFree(c)
    ensures EntryChange(tree, after, t, c, {}, Pairs(index))
  {
    after := tree;
    var todo := index.Keys;
    assert index - todo == map[];
    while todo != {}
      invariant todo <= index.Keys
      invariant EntryChange(tree, after, t, c, {}, Pairs(index - todo))
    {
      var cell :| cell in todo;
      ghost var mid := after;
      after := PersistCell(after, t, c, cell, index[cell]);
      EntryChangeAdds(tree, mid, after, t, c, Pairs(index - todo), IdPairs(cell, index[cell]));
      PairsCell(index, todo, cell);
      todo := todo - {cell};
    }
    assert index - todo == index;
  }

  lemma PairsCell(index: CellIndex, todo: set<Bytes>, cell: Bytes)
    requires todo <= index.Keys && cell in todo
    ensures Pairs(index - (todo - {cell})) == Pairs(index - todo) + IdPairs(cell, index[cell])
  {
    forall e ensures e in Pairs(index - (todo - {cell})) <==> e in Pairs(index - todo) || e in IdPairs(cell, index[cell]) {
      if e in IdPairs(cell, index[cell]) {
        var id :| id in index[cell] && e == Seg(cell, id);
        assert cell in index - (todo - {cell}) && id in (index - (todo - {cell}))[cell];
      }
      if e in Pairs(index - todo) {
        var x, y :| x in index - todo && y in (index - todo)[x] && e == Seg(x, y);
        assert x in index - (todo - {cell}) && y in (index - (todo - {cell}))[x];
      }
    }
  }

  /** Build, or rebuild, the index of a column: it then holds exactly the pairs of the table. */
  method BuildIndex(tree: Tree, t: Bytes, c: Bytes) returns (after: Tree)
    requires SafeTable(t) && TableOk(tree, t)
    requires NulFree(c)
    ensures TableOk(after, t) && OnlyTable(tree, after, t)
    ensures Rows(after, t) == Rows(tree, t) && Indexed(after, t) == Indexed(tree, t) + {c}
    ensures Entries(after, t, c) == IndexOf(Rows(tree, t), c)
  {
    var index := CollectIndex(tree, t, c);
    IndexRecordsAll(tree, t, c);
    MetaPut(tree, t, c, Raw([49]));
    after := tree[MetaKey(t, c) := Raw([49])];
    ghost var mid := after;
    after := PersistEntries(after, t, c, index);
    BuildExact(tree, mid, after, t, c);
  }

  lemma BuildExact(tree: Tree, mid: Tree, after: Tree, t: Bytes, c: Bytes)
    requires SafeTable(t) && TableOk(tree, t) && NulFree(c)
    requires mid == tree[MetaKey(t, c) := Raw([49])]
    requires EntryChange(mid, after, t, c, {}, IndexOf(Rows(tree, t), c))
    ensures TableOk(after, t) && OnlyTable(tree, after, t)
    ensures Rows(after, t) == Rows(tree, t) && Indexed(after, t) == Indexed(tree, t) + {c}
    ensures Entries(after, t, c) == IndexOf(Rows(tree, t), c)
  {
    MetaPut(tree, t, c, Raw([49]));
    assert Rows(after, t) == Rows(tree, t) && PackedTable(after, t) by {
      SameRowsRows(tree, mid, t);
      SameRowsRows(mid, after, t);
    }
    assert OnlyTable(tree, after, t) by { OnlyTableTransitive(tree, mid, after, t); }
    assert IndexExact(tree, t, c);
    forall d | NulFree(d) ensures IndexExact(after, t, d) {
      assert IndexExact(tree, t, d);
    }
  }
}
