/** INSERT, UPDATE, DELETE and CREATE INDEX on the key-value store, with index maintenance. */
module Dml {
  import opened ByteStrings
  import opened Values
  import opened Store
  import opened KeySpace
  import opened RowStore
  import opened IndexState
  import opened TableScan
  import opened SecondaryIndex

  datatype Statement =
    | CreateIndex(table: Bytes, column: Bytes)
    | Insert(table: Bytes, columns: Option<seq<Bytes>>, values: seq<seq<Result<Value>>>)
    | Update(table: Bytes, sets: seq<Assignment>, where: Filter)
    | Delete(table: Bytes, where: Filter)

  predicate AllIn(ids: seq<Bytes>, rows: Table) {
    forall i :: 0 <= i < |ids| ==> ids[i] in rows
  }

  /** The rows of a table with their ids, in scan order. */
  function Listing(rows: Table, ids: seq<Bytes>): seq<(Bytes, Row)>
    requires AllIn(ids, rows)
  {
    if ids == [] then []
    else
      var n := |ids| - 1;
      Listing(rows, ids[..n]) + [(ids[n], ToRow(rows[ids[n]]))]
  }

  lemma {:induction false} ListingAt(rows: Table, ids: seq<Bytes>)
    requires AllIn(ids, rows)
    ensures |Listing(rows, ids)| == |ids|
    ensures forall i :: 0 <= i < |ids| ==> Listing(rows, ids)[i] == (ids[i], ToRow(rows[ids[i]]))
  {
    if ids != [] {
      ListingAt(rows, ids[..|ids| - 1]);
    }
  }

  /** Row ids in scan order. */
  function Ids(rows: Table): (ids: seq<Bytes>)
    ensures AllIn(ids, rows)
  {
    var ids := SortedKeys(rows.Keys);
    assert forall i :: 0 <= i < |ids| ==> ids[i] in ids;
    ids
  }

  /** The entries of a table in which every record is a packed row. */
  function PackedEntries(rows: Table, ids: seq<Bytes>): seq<Entry>
    requires AllIn(ids, rows)
  {
    if ids == [] then []
    else
      var n := |ids| - 1;
      PackedEntries(rows, ids[..n]) + [PackedEntry(ids[n], rows[ids[n]])]
  }

  /** The groups of a table in which every record is a packed row. */
  function PackedSlots(rows: Table): Grouped {
    map id | id in rows :: Slot(Some(ToRow(rows[id])), [])
  }

  lemma PackedIngest(rows: Table, id: Bytes, cols: Cols)
    requires id !in rows
    ensures Ingest(PackedSlots(rows), PackedEntry(id, cols), None) == PackedSlots(rows[id := cols])
  {
    DecodeAll(cols);
  }

  function Restrict(rows: Table, ids: seq<Bytes>): Table {
    map id | id in rows && id in ids :: rows[id]
  }

  lemma RestrictStep(rows: Table, ids: seq<Bytes>, id: Bytes)
    requires id in rows && id !in ids
    ensures Restrict(rows, ids + [id]) == Restrict(rows, ids)[id := rows[id]]
  {
  }

  lemma PackedGroupStep(rows: Table, es: seq<Entry>, ids: seq<Bytes>, id: Bytes)
    requires id in rows && id !in ids
    requires Group(es, None) == PackedSlots(Restrict(rows, ids))
    ensures Group(es + [PackedEntry(id, rows[id])], None) == PackedSlots(Restrict(rows, ids + [id]))
  {
    var e := PackedEntry(id, rows[id]);
    assert (es + [e])[..|es|] == es;
    assert Group(es + [e], None) == Ingest(Group(es, None), e, None);
    RestrictStep(rows, ids, id);
    PackedIngest(Restrict(rows, ids), id, rows[id]);
  }

  lemma {:induction false} PackedGroups(rows: Table, ids: seq<Bytes>)
    requires AllIn(ids, rows)
    requires Distinct(ids)
    ensures Group(PackedEntries(rows, ids), None) == PackedSlots(Restrict(rows, ids))
  {
    if ids != [] {
      var n := |ids| - 1;
      PackedGroups(rows, ids[..n]);
      PackedGroupStep(rows, PackedEntries(rows, ids[..n]), ids[..n], ids[n]);
      assert ids == ids[..n] + [ids[n]];
    }
  }

  function Without(tree: Tree, p: Bytes, rests: seq<Bytes>): Tree {
    if rests == [] then tree
    else Without(tree, p, rests[..|rests| - 1]) - {p + rests[|rests| - 1]}
  }

  lemma {:induction false} WithoutKeys(tree: Tree, p: Bytes, rests: seq<Bytes>)
    ensures Without(tree, p, rests) == tree - (set x | x in rests :: p + x)
  {
    if rests != [] {
      var n := |rests| - 1;
      WithoutKeys(tree, p, rests[..n]);
      assert rests == rests[..n] + [rests[n]];
      assert (set x | x in rests :: p + x) == (set x | x in rests[..n] :: p + x) + {p + rests[n]};
    }
  }

  lemma WithoutAll(tree: Tree, p: Bytes)
    ensures Without(tree, p, SortedKeys(Under(tree, p))) == tree - KeysUnder(tree, p)
  {
    var rests := SortedKeys(Under(tree, p));
    WithoutKeys(tree, p, rests);
    forall k ensures k in tree && k in (set x | x in rests :: p + x) <==> k in KeysUnder(tree, p) {
      if k in KeysUnder(tree, p) {
        var x := k[|p|..];
        UnderIff(tree, p, x);
        assert k == p + x && x in rests;
      } else if x :| x in rests && k == p + x {
        UnderIff(tree, p, x);
      }
    }
  }

  /** A packed table has no legacy cells. */
  lemma NoCells(tree: Tree, t: Bytes, id: Bytes)
    requires PackedTable(tree, t)
    ensures KeysUnder(tree, RowPrefix(t, id)) == {}
    ensures tree - KeysUnder(tree, RowPrefix(t, id)) == tree
  {
    var p := RowPrefix(t, id);
    forall k ensures k !in KeysUnder(tree, p) {
      var x := if p <= k then k[|p|..] else [];
      assert p <= k ==> k == PackedKey(t, Seg(id, x));
      assert Seg(id, x)[|id|] == NUL;
    }
  }

  // ----- index maintenance restores exactness -----

  /** Index writes that change the entries of each column from `gone` to `added`. */
  ghost predicate EntriesMove(before: Tree, after: Tree, t: Bytes, gone: Cols, added: Cols, id: Bytes) {
    && IndexStep(before, after, t)
    && forall c {:trigger Entries(after, t, c)} :: NulFree(c) ==>
        Entries(after, t, c) == if c in Indexed(before, t)
                                then Entries(before, t, c) - EntryOf(gone, c, id) + EntryOf(added, c, id)
                                else Entries(before, t, c)
  }

  /** Part-way through `EntriesMove`: the columns in `done` have been moved. */
  ghost predicate Moving(before: Tree, after: Tree, t: Bytes, gone: Cols, added: Cols, id: Bytes, done: seq<Bytes>) {
    && IndexStep(before, after, t)
    && forall c {:trigger Entries(after, t, c)} :: NulFree(c) ==>
        Entries(after, t, c) == if c in Indexed(before, t) && c in done
                                then Entries(before, t, c) - EntryOf(gone, c, id) + EntryOf(added, c, id)
                                else Entries(before, t, c)
  }

  lemma MovingStep(before: Tree, mid: Tree, after: Tree, t: Bytes, gone: Cols, added: Cols, id: Bytes, done: seq<Bytes>, col: Bytes)
    requires Moving(before, mid, t, gone, added, id, done)
    requires if col in Indexed(before, t)
             then EntryChange(mid, after, t, col, EntryOf(gone, col, id), EntryOf(added, col, id))
             else mid == after
    ensures Moving(before, after, t, gone, added, id, done + [col])
  {
  }

  lemma MovingDone(before: Tree, after: Tree, t: Bytes, gone: Cols, added: Cols, id: Bytes, done: seq<Bytes>)
    requires Moving(before, after, t, gone, added, id, done)
    requires forall c :: c in Indexed(before, t) && c !in done ==>
      EntryOf(gone, c, id) == EntryOf(added, c, id) <= Entries(before, t, c)
    ensures EntriesMove(before, after, t, gone, added, id)
  {
  }

  lemma StoreWritten(before: Tree, after: Tree, t: Bytes, id: Bytes, cols: Cols)
    requires SafeTable(t) && PackedTable(before, t) && NulFree(id)
    requires EntriesMove(before[PackedKey(t, id) := Packed(cols)], after, t, [], cols, id)
    ensures PackedTable(after, t) && OnlyTable(before, after, t)
    ensures Rows(after, t) == Rows(before, t)[id := cols] && Indexed(after, t) == Indexed(before, t)
    ensures forall c {:trigger Entries(after, t, c)} :: NulFree(c) ==>
              Entries(after, t, c) == Entries(before, t, c) + if c in Indexed(before, t) then EntryOf(cols, c, id) else {}
  {
    var written := before[PackedKey(t, id) := Packed(cols)];
    RowWrite(before, t, id, cols);
    SameRowsRows(written, after, t);
    assert OnlyTable(before, after, t) by { OnlyTableTransitive(before, written, after, t); }
    assert forall c :: EntryOf([], c, id) == {};
  }

  lemma StoreColumn(before: Tree, after: Tree, t: Bytes, id: Bytes, cols: Cols, c: Bytes)
    requires TableOk(before, t) && NulFree(c) && Rows(after, t) == Rows(before, t)[id := cols] && Indexed(after, t) == Indexed(before, t)
    requires Entries(after, t, c) == Entries(before, t, c) + if c in Indexed(before, t) then EntryOf(cols, c, id) else {}
    ensures IndexExact(after, t, c) <==> (c in Indexed(before, t) ==> KeepsEntry(Rows(before, t), id, cols, c))
  {
    assert IndexExact(before, t, c);
    if id in Rows(before, t) { OverwriteExact(Rows(before, t), id, cols, c); } else { IndexAdd(Rows(before, t), id, cols, c); }
  }

  /** A row stored with its entries leaves every index exact if and only if no entry of a row it replaces goes stale. */
  lemma StoreExact(before: Tree, after: Tree, t: Bytes, id: Bytes, cols: Cols)
    requires SafeTable(t) && TableOk(before, t) && NulFree(id) && Distinct(Names(cols))
    requires EntriesMove(before[PackedKey(t, id) := Packed(cols)], after, t, [], cols, id)
    ensures OnlyTable(before, after, t)
    ensures Rows(after, t) == Rows(before, t)[id := cols] && Indexed(after, t) == Indexed(before, t)
    ensures TableOk(after, t) <==> KeepsEntries(Rows(before, t), Indexed(before, t), id, cols)
  {
    StoreWritten(before, after, t, id, cols);
    assert TableRows(Rows(after, t)) by { StoredRows(Rows(before, t), id, cols); }
    forall c | NulFree(c) ensures IndexExact(after, t, c) <==> (c in Indexed(before, t) ==> KeepsEntry(Rows(before, t), id, cols, c)) {
      StoreColumn(before, after, t, id, cols, c);
    }
  }

  lemma StoredRows(rows: Table, id: Bytes, cols: Cols)
    requires TableRows(rows) && NulFree(id) && Distinct(Names(cols))
    ensures TableRows(rows[id := cols])
  {
  }

  lemma RewriteReady(before: Tree, t: Bytes, id: Bytes, cols: Cols)
    requires SafeTable(t) && TableOk(before, t) && id in Rows(before, t)
    ensures var written := before[PackedKey(t, id) := Packed(cols)];
            && PackedTable(written, t)
            && Indexed(written, t) == Indexed(before, t)
            && forall c :: c in Indexed(before, t) ==> NulFree(c) && EntryOf(Rows(before, t)[id], c, id) <= Entries(written, t, c)
  {
    RowWrite(before, t, id, cols);
    forall c | c in Indexed(before, t)
      ensures NulFree(c) && EntryOf(Rows(before, t)[id], c, id) <= Entries(before, t, c)
    {
      EntryPresent(before, t, id, c);
    }
  }

  lemma RewriteExact(before: Tree, after: Tree, t: Bytes, id: Bytes, cols: Cols)
    requires SafeTable(t) && TableOk(before, t)
    requires id in Rows(before, t) && Distinct(Names(cols))
    requires EntriesMove(before[PackedKey(t, id) := Packed(cols)], after, t, Rows(before, t)[id], cols, id)
    ensures TableOk(after, t) && OnlyTable(before, after, t)
    ensures Rows(after, t) == Rows(before, t)[id := cols] && Indexed(after, t) == Indexed(before, t)
  {
    var written := before[PackedKey(t, id) := Packed(cols)];
    RowWrite(before, t, id, cols);
    SameRowsRows(written, after, t);
    assert OnlyTable(before, after, t) by { OnlyTableTransitive(before, written, after, t); }
    forall c | NulFree(c) ensures IndexExact(after, t, c) {
      assert IndexExact(before, t, c);
      if c in Indexed(before, t) { RewriteIndex(before, after, t, id, cols, c); }
    }
  }

  lemma RewriteIndex(before: Tree, after: Tree, t: Bytes, id: Bytes, cols: Cols, c: Bytes)
    requires SafeTable(t) && TableOk(before, t) && NulFree(c) && c in Indexed(before, t)
    requires id in Rows(before, t) && Rows(after, t) == Rows(before, t)[id := cols]
    requires EntriesMove(before[PackedKey(t, id) := Packed(cols)], after, t, Rows(before, t)[id], cols, id)
    ensures Entries(after, t, c) == IndexOf(Rows(after, t), c)
  {
    RowWrite(before, t, id, cols);
    assert IndexExact(before, t, c);
    var written := before[PackedKey(t, id) := Packed(cols)];
    assert Entries(after, t, c) == Entries(written, t, c) - EntryOf(Rows(before, t)[id], c, id) + EntryOf(cols, c, id);
    IndexReplace(Rows(before, t), id, cols, c);
  }

  lemma RemoveExact(before: Tree, after: Tree, t: Bytes, id: Bytes)
    requires SafeTable(t) && TableOk(before, t) && id in Rows(before, t)
    requires EntriesMove(before - {PackedKey(t, id)}, after, t, Rows(before, t)[id], [], id)
    ensures TableOk(after, t) && OnlyTable(before, after, t)
    ensures Rows(after, t) == Rows(before, t) - {id} && Indexed(after, t) == Indexed(before, t)
  {
    var written := before - {PackedKey(t, id)};
    RowRemove(before, t, id);
    SameRowsRows(written, after, t);
    forall c | NulFree(c) ensures IndexExact(after, t, c) {
      assert IndexExact(before, t, c);
      assert EntryOf([], c, id) == {};
      if c in Indexed(before, t) { IndexRemove(Rows(before, t), id, c); }
    }
  }

  /** The entries of a stored row are in the indexes of its table. */
  lemma EntryPresent(tree: Tree, t: Bytes, id: Bytes, c: Bytes)
    requires TableOk(tree, t) && id in Rows(tree, t) && c in Indexed(tree, t)
    ensures EntryOf(Rows(tree, t)[id], c, id) <= Entries(tree, t, c)
  {
    assert IndexExact(tree, t, c);
    assert forall e :: e in EntryOf(Rows(tree, t)[id], c, id) ==> e in IndexOf(Rows(tree, t), c);
  }

  /** A scanned key, split at the first zero byte: a cell, or the packed record of a row. */
  function ParseEntry(rest: Bytes, r: Record): seq<Entry> {
    if !NulFree(rest) then [CellEntry(Head(rest), Tail(rest), RecordBytes(r))]
    else if r.Packed? then [PackedEntry(rest, r.cols)]
    else []
  }

  function ParsedEntries(tree: Tree, t: Bytes, rests: seq<Bytes>): seq<Entry> {
    if rests == [] then []
    else
      var n := |rests| - 1;
      var k := PackedKey(t, rests[n]);
      ParsedEntries(tree, t, rests[..n]) + if k in tree then ParseEntry(rests[n], tree[k]) else []
  }

  lemma {:induction false} ParsedPacked(tree: Tree, t: Bytes, ids: seq<Bytes>)
    requires PackedTable(tree, t) && AllIn(ids, Rows(tree, t))
    ensures ParsedEntries(tree, t, ids) == PackedEntries(Rows(tree, t), ids)
  {
    if ids != [] {
      var n := |ids| - 1;
      ParsedPacked(tree, t, ids[..n]);
      RowsIff(tree, t, ids[n]);
    }
  }

  function Assembled(g: Grouped, ids: seq<Bytes>): seq<(Bytes, Row)>
    requires forall i :: 0 <= i < |ids| ==> ids[i] in g
  {
    if ids == [] then []
    else
      var n := |ids| - 1;
      Assembled(g, ids[..n]) + [(ids[n], MergeRow(g[ids[n]]))]
  }

  method AssembleAll(g: Grouped) returns (rows: seq<(Bytes, Row)>)
    ensures var ids := SortedKeys(g.Keys);
            && (forall i :: 0 <= i < |ids| ==> ids[i] in g)
            && rows == Assembled(g, ids)
  {
    var ids := SortedKeys(g.Keys);
    assert forall i :: 0 <= i < |ids| ==> ids[i] in ids;
    rows := [];
    for i := 0 to |ids|
      invariant rows == Assembled(g, ids[..i])
    {
      rows := rows + [(ids[i], MergeRow(g[ids[i]]))];
      TakeStep(ids, i);
    }
    TakeAll(ids);
  }

  lemma {:induction false} AssembledPacked(rows: Table, ids: seq<Bytes>)
    requires AllIn(ids, rows)
    ensures Assembled(PackedSlots(rows), ids) == Listing(rows, ids)
  {
    if ids != [] {
      AssembledPacked(rows, ids[..|ids| - 1]);
    }
  }

  /** Grouping and merging a packed table lists its rows in id order. */
  lemma PackedScan(rows: Table)
    ensures Group(PackedEntries(rows, Ids(rows)), None) == PackedSlots(rows)
    ensures PackedSlots(rows).Keys == rows.Keys
    ensures Assembled(PackedSlots(rows), Ids(rows)) == Listing(rows, Ids(rows))
  {
    SortedAscending(rows.Keys);
    PackedGroups(rows, Ids(rows));
    assert Restrict(rows, Ids(rows)) == rows;
    AssembledPacked(rows, Ids(rows));
  }

  // ----- reading -----

  method ScanEntries(tree: Tree, t: Bytes) returns (entries: seq<Entry>)
    ensures entries == ParsedEntries(tree, t, SortedKeys(Under(tree, TablePrefix(t))))
  {
    var p := TablePrefix(t);
    assert Bounded(p) by { assert p[|t|] == NUL; }
    var rests := ScanSuffixes(tree, p);
    entries := [];
    for i := 0 to |rests|
      invariant entries == ParsedEntries(tree, t, rests[..i])
    {
      var k := PackedKey(t, rests[i]);
      if k in tree {
        entries := entries + ParseEntry(rests[i], tree[k]);
      }
      TakeStep(rests, i);
    }
    TakeAll(rests);
  }

  /** Group the entries of a table by row id and merge each group into a row. */
  method ScanTable(tree: Tree, t: Bytes) returns (rows: seq<(Bytes, Row)>)
    requires PackedTable(tree, t)
    ensures rows == Listing(Rows(tree, t), Ids(Rows(tree, t)))
  {
    var entries := ScanEntries(tree, t);
    var grouped := GroupSerial(entries, None);
    RowsAreUnder(tree, t);
    ParsedPacked(tree, t, Ids(Rows(tree, t)));
    PackedScan(Rows(tree, t));
    rows := AssembleAll(grouped);
  }

  // ----- one index entry -----

  method DeleteEntry(tree: Tree, t: Bytes, col: Bytes, cell: Bytes, id: Bytes) returns (after: Tree)
    requires SafeTable(t) && NulFree(col)
    ensures EntryChange(tree, after, t, col, {Seg(cell, id)}, {})
  {
    EntryRemove(tree, t, col, cell, id);
    after := tree - {EntryKey(t, col, cell, id)};
  }

  /** Tombstone the old entry of one column and write the new one, unless the cell is unchanged. */
  method ReplaceEntry(tree: Tree, t: Bytes, col: Bytes, before: Option<Bytes>, cell: Bytes, id: Bytes) returns (after: Tree)
    requires SafeTable(t) && NulFree(col)
    requires before == Some(cell) ==> Seg(cell, id) in Entries(tree, t, col)
    ensures EntryChange(tree, after, t, col, if before.Some? then {Seg(before.value, id)} else {}, {Seg(cell, id)})
  {
    after := tree;
    if before != Some(cell) {
      if before.Some? {
        after := DeleteEntry(after, t, col, before.value, id);
      }
      after := PutEntry(after, t, col, cell, id);
    }
  }

  // ----- the entries of one row -----

  /** Add an index entry for each indexed column of a new row. */
  method PutEntries(tree: Tree, t: Bytes, id: Bytes, cols: Cols, indexed: seq<Bytes>) returns (after: Tree)
    requires SafeTable(t) && Distinct(Names(cols))
    requires indexed == SortedKeys(Indexed(tree, t))
    requires forall c :: c in indexed ==> NulFree(c)
    ensures EntriesMove(tree, after, t, [], cols, id)
  {
    after := tree;
    for i := 0 to |cols|
      invariant Moving(tree, after, t, [], cols, id, Names(cols[..i]))
    {
      NamesStep(cols, i);
      ghost var mid := after;
      if cols[i].0 in indexed {
        after := PutEntry(after, t, cols[i].0, cols[i].1, id);
      }
      MovingStep(tree, mid, after, t, [], cols, id, Names(cols[..i]), cols[i].0);
    }
    TakeAll(cols);
    forall c | c !in Names(cols) ensures EntryOf(cols, c, id) == {} { LookupFound(cols, c); }
    MovingDone(tree, after, t, [], cols, id, Names(cols));
  }

  /** Move the entries of the assigned columns from the old cells to the new ones. */
  method PatchEntries(tree: Tree, t: Bytes, id: Bytes, cols: Cols, pending: Cols, indexed: seq<Bytes>) returns (after: Tree)
    requires SafeTable(t) && Distinct(Names(pending))
    requires indexed == SortedKeys(Indexed(tree, t))
    requires forall c :: c in indexed ==> NulFree(c) && EntryOf(cols, c, id) <= Entries(tree, t, c)
    ensures EntriesMove(tree, after, t, cols, ApplySets(cols, pending), id)
  {
    ghost var merged := ApplySets(cols, pending);
    after := tree;
    for i := 0 to |pending|
      invariant Moving(tree, after, t, cols, merged, id, Names(pending[..i]))
    {
      var (col, cell) := pending[i];
      NamesStep(pending, i);
      ApplySetsReads(cols, pending, col);
      LookupFound(pending, col);
      ghost var mid := after;
      if col in indexed {
        after := ReplaceEntry(after, t, col, Lookup(cols, col), cell, id);
      }
      MovingStep(tree, mid, after, t, cols, merged, id, Names(pending[..i]), col);
    }
    TakeAll(pending);
    forall c | c !in Names(pending) ensures EntryOf(merged, c, id) == EntryOf(cols, c, id) {
      ApplySetsReads(cols, pending, c);
    }
    MovingDone(tree, after, t, cols, merged, id, Names(pending));
  }

  /** Drop the entries of a deleted row. */
  method DropEntries(tree: Tree, t: Bytes, id: Bytes, cols: Cols, indexed: seq<Bytes>) returns (after: Tree)
    requires SafeTable(t)
    requires indexed == SortedKeys(Indexed(tree, t))
    requires forall c :: c in indexed ==> NulFree(c)
    ensures EntriesMove(tree, after, t, cols, [], id)
  {
    after := tree;
    for i := 0 to |indexed|
      invariant Moving(tree, after, t, cols, [], id, indexed[..i])
    {
      var before := Lookup(cols, indexed[i]);
      ghost var mid := after;
      assert indexed[i] in indexed;
      if before.Some? {
        after := DeleteEntry(after, t, indexed[i], before.value, id);
      }
      MovingStep(tree, mid, after, t, cols, [], id, indexed[..i], indexed[i]);
      TakeStep(indexed, i);
    }
    TakeAll(indexed);
    MovingDone(tree, after, t, cols, [], id, indexed);
  }

  // ----- one row -----

  /** Tombstone the legacy cells of a row. */
  method TombstoneCells(tree: Tree, t: Bytes, id: Bytes) returns (after: Tree)
    ensures after == tree - KeysUnder(tree, RowPrefix(t, id))
  {
    var p := RowPrefix(t, id);
    assert Bounded(p) by { assert p[|t|] == NUL; }
    var rests := ScanSuffixes(tree, p);
    after := tree;
    for i := 0 to |rests|
      invariant after == Without(tree, p, rests[..i])
    {
      after := after - {p + rests[i]};
      TakeStep(rests, i);
    }
    TakeAll(rests);
    WithoutAll(tree, p);
  }

  /** Store an accepted row, new or over an old one: its packed record, then its index entries. */
  method StoreRow(tree: Tree, t: Bytes, id: Bytes, cols: Cols, indexed: seq<Bytes>) returns (after: Tree)
    requires SafeTable(t) && TableOk(tree, t)
    requires NulFree(id) && Distinct(Names(cols))
    requires indexed == SortedKeys(Indexed(tree, t))
    ensures OnlyTable(tree, after, t)
    ensures TableOk(after, t) <==> KeepsEntries(Rows(tree, t), Indexed(tree, t), id, cols)
    ensures Rows(after, t) == Rows(tree, t)[id := cols] && Indexed(after, t) == Indexed(tree, t)
  {
    RowWrite(tree, t, id, cols);
    after := tree[PackedKey(t, id) := Packed(cols)];
    after := PutEntries(after, t, id, cols, indexed);
    StoreExact(tree, after, t, id, cols);
  }

  /** Rewrite a row with its assigned columns and move their index entries. */
  method RewriteRow(tree: Tree, t: Bytes, id: Bytes, pending: Cols, indexed: seq<Bytes>) returns (after: Tree)
    requires SafeTable(t) && TableOk(tree, t) && id in Rows(tree, t)
    requires Distinct(Names(pending))
    requires indexed == SortedKeys(Indexed(tree, t))
    ensures TableOk(after, t) && OnlyTable(tree, after, t)
    ensures Rows(after, t) == Rows(tree, t)[id := ApplySets(Rows(tree, t)[id], pending)]
    ensures Indexed(after, t) == Indexed(tree, t)
  {
    RowsIff(tree, t, id);
    var cols := tree[PackedKey(t, id)].cols;
    var merged := ApplySets(cols, pending);
    RewriteReady(tree, t, id, merged);
    ApplySetsDistinct(cols, pending);
    after := tree[PackedKey(t, id) := Packed(merged)];
    NoCells(after, t, id);
    after := TombstoneCells(after, t, id);
    after := PatchEntries(after, t, id, cols, pending, indexed);
    RewriteExact(tree, after, t, id, merged);
  }

  /** Delete a row: its packed record, any legacy cells, and its index entries. */
  method RemoveRow(tree: Tree, t: Bytes, id: Bytes, indexed: seq<Bytes>) returns (after: Tree)
    requires SafeTable(t) && TableOk(tree, t) && id in Rows(tree, t)
    requires indexed == SortedKeys(Indexed(tree, t))
    ensures TableOk(after, t) && OnlyTable(tree, after, t)
    ensures Rows(after, t) == Rows(tree, t) - {id} && Indexed(after, t) == Indexed(tree, t)
  {
    RowsIff(tree, t, id);
    var cols := tree[PackedKey(t, id)].cols;
    RowRemove(tree, t, id);
    after := tree - {PackedKey(t, id)};
    NoCells(after, t, id);
    after := TombstoneCells(after, t, id);
    after := DropEntries(after, t, id, cols, indexed);
    RemoveExact(tree, after, t, id);
  }

  // ----- INSERT -----

  /** Primary-key checks against the store: a packed record, or a legacy cell of the key column. */
  method EnforceKey(env: Env, tree: Tree, t: Bytes, pks: seq<Bytes>, names: seq<Bytes>, values: seq<Value>)
    returns (r: Result<()>)
    requires PackedTable(tree, t) && |names| == |values|
    ensures r == CheckKey(env, pks, Rows(tree, t), names, values)
  {
    for i := 0 to |pks|
      invariant CheckKey(env, pks, Rows(tree, t), names, values) == CheckKey(env, pks[i..], Rows(tree, t), names, values)
    {
      var at := Position(names, pks[i]);
      if at.None? { return Err(Constraint("PRIMARY KEY column missing", pks[i])); }
      var v := values[at.value];
      if v.Null? { return Err(Constraint("NOT NULL PRIMARY KEY", pks[i])); }
      var id := RowId(env, v);
      RowsIff(tree, t, id);
      NoCell(tree, t, id, pks[i]);
      if PackedKey(t, id) in tree || CellKey(t, id, pks[i]) in tree {
        return Err(Constraint("PRIMARY KEY duplicate", pks[i]));
      }
      DropStep(pks, i);
    }
    r := Ok(());
  }

  lemma NoCell(tree: Tree, t: Bytes, id: Bytes, c: Bytes)
    requires PackedTable(tree, t)
    ensures CellKey(t, id, c) !in tree
  {
    assert Seg(id, c)[|id|] == NUL;
    assert CellKey(t, id, c) == PackedKey(t, Seg(id, c));
  }

  predicate RowHolds(env: Env, row: Row, name: Bytes, v: Value) {
    Lookup(row, name).Some? && SqlEq(env, Lookup(row, name).value, v) == Some(true)
  }

  method AnyRowHolds(env: Env, existing: seq<(Bytes, Row)>, name: Bytes, v: Value) returns (found: bool)
    ensures found <==> exists j :: 0 <= j < |existing| && RowHolds(env, existing[j].1, name, v)
  {
    for j := 0 to |existing|
      invariant forall k :: 0 <= k < j ==> !RowHolds(env, existing[k].1, name, v)
    {
      var prev := Lookup(existing[j].1, name);
      if prev.Some? && SqlEq(env, prev.value, v) == Some(true) {
        assert RowHolds(env, existing[j].1, name, v);
        return true;
      }
    }
    found := false;
  }

  lemma ListingHolds(env: Env, rows: Table, name: Bytes, v: Value)
    ensures var existing := Listing(rows, Ids(rows));
            (exists j :: 0 <= j < |existing| && RowHolds(env, existing[j].1, name, v))
            <==> exists id :: id in rows && HoldsEqual(env, rows[id], name, v)
  {
    var ids := Ids(rows);
    var existing := Listing(rows, ids);
    ListingAt(rows, ids);
    forall id | id in rows ensures HoldsEqual(env, rows[id], name, v) <==> RowHolds(env, ToRow(rows[id]), name, v) {
      LookupToRow(rows[id], name);
    }
    if id :| id in rows && HoldsEqual(env, rows[id], name, v) {
      assert id in ids;
      var j :| 0 <= j < |ids| && ids[j] == id;
      assert RowHolds(env, existing[j].1, name, v);
    }
    if j :| 0 <= j < |existing| && RowHolds(env, existing[j].1, name, v) {
      assert ids[j] in rows && existing[j].1 == ToRow(rows[ids[j]]);
    }
  }

  /** Whether some scanned row holds an equal value in the column. */
  method HoldsDuplicate(env: Env, rows: Table, existing: seq<(Bytes, Row)>, name: Bytes, v: Value) returns (found: bool)
    requires existing == Listing(rows, Ids(rows))
    ensures found <==> exists id :: id in rows && HoldsEqual(env, rows[id], name, v)
  {
    ListingHolds(env, rows, name, v);
    found := AnyRowHolds(env, existing, name, v);
  }

  method EnforceUnique(env: Env, tree: Tree, t: Bytes, columns: seq<ColumnMeta>, names: seq<Bytes>, values: seq<Value>)
    returns (r: Result<()>)
    requires PackedTable(tree, t) && |names| == |values|
    ensures r == CheckUnique(env, columns, Rows(tree, t), names, values)
  {
    ghost var rows := Rows(tree, t);
    var existing := ScanTable(tree, t);
    for i := 0 to |columns|
      invariant CheckUnique(env, columns, rows, names, values) == CheckUnique(env, columns[i..], rows, names, values)
    {
      var c := columns[i];
      var at := if c.unique && !c.primaryKey then Position(names, c.name) else None;
      if at.Some? && !values[at.value].Null? {
        var dup := HoldsDuplicate(env, Rows(tree, t), existing, c.name, values[at.value]);
        if dup { return Err(Constraint("UNIQUE duplicate", c.name)); }
      }
      DropStep(columns, i);
    }
    r := Ok(());
  }

  method PrepareRow(env: Env, schema: TableSchema, tree: Tree, t: Bytes, names: seq<Bytes>, exprs: seq<Result<Value>>)
    returns (r: Result<(Bytes, Cols)>)
    requires PackedTable(tree, t) && names != []
    ensures r == PrepareInsert(env, schema, Rows(tree, t), names, exprs)
  {
    if |exprs| != |names| { return Err(TypeMismatch("INSERT column count mismatch", [])); }
    var evaluated := EvalAll(exprs);
    if evaluated.Err? { return Err(evaluated.error); }
    var values := evaluated.value;
    var key := EnforceKey(env, tree, t, schema.primaryKey, names, values);
    if key.Err? { return Err(key.error); }
    var unique := EnforceUnique(env, tree, t, schema.columns, names, values);
    if unique.Err? { return Err(unique.error); }
    var encoded := EncodeAll(env, schema.columns, names, values);
    if encoded.Err? { return Err(encoded.error); }
    r := Ok((RowId(env, values[0]), encoded.value));
  }

  method InsertRows(env: Env, schema: TableSchema, tree: Tree, t: Bytes, names: seq<Bytes>, values: seq<seq<Result<Value>>>)
    returns (after: Tree, r: Result<()>)
    requires SafeTable(t) && TableOk(tree, t)
    requires names != [] && Distinct(names) && InsertSafe(env, schema, Rows(tree, t), Indexed(tree, t), names, values)
    ensures TableOk(after, t) && OnlyTable(tree, after, t) && Indexed(after, t) == Indexed(tree, t)
    ensures (Rows(after, t), r) == InsertAll(env, schema, Rows(tree, t), names, values)
  {
    after := tree;
    var indexed := IndexedColumns(tree, t);
    for i := 0 to |values|
      invariant TableOk(after, t) && OnlyTable(tree, after, t) && Indexed(after, t) == Indexed(tree, t)
      invariant InsertSafe(env, schema, Rows(after, t), Indexed(tree, t), names, values[i..])
      invariant InsertAll(env, schema, Rows(tree, t), names, values) == InsertAll(env, schema, Rows(after, t), names, values[i..])
    {
      DropStep(values, i);
      var prepared := PrepareRow(env, schema, after, t, names, values[i]);
      if prepared.Err? {
        return after, Err(prepared.error);
      }
      PreparedNames(env, schema, Rows(after, t), names, values[i]);
      after := StoreRow(after, t, prepared.value.0, prepared.value.1, indexed);
    }
    r := Ok(());
  }

  // ----- WHERE -----

  lemma MatchStep(rows: Table, ids: seq<Bytes>, where: Filter, i: nat, matched: seq<Bytes>)
    requires AllIn(ids, rows) && i < |ids| && Matching(rows, ids[..i], where) == Ok(matched)
    ensures match Passes(where, ToRow(rows[ids[i]]))
            case Err(e) => Matching(rows, ids, where) == Err(e)
            case Ok(keep) => Matching(rows, ids[..i + 1], where) == Ok(if keep then matched + [ids[i]] else matched)
  {
    TakeStep(ids, i);
    if Passes(where, ToRow(rows[ids[i]])).Err? { MatchingStops(rows, ids, where, i + 1); }
  }

  /** Scan the table and keep the rows that pass the filter, stopping at the first evaluation error. */
  method MatchRows(tree: Tree, t: Bytes, where: Filter) returns (r: Result<seq<Bytes>>)
    requires PackedTable(tree, t)
    ensures r == Matching(Rows(tree, t), Ids(Rows(tree, t)), where)
  {
    ghost var rows := Rows(tree, t);
    ghost var ids := Ids(rows);
    var all := ScanTable(tree, t);
    ListingAt(rows, ids);
    var matched: seq<Bytes> := [];
    for i := 0 to |all|
      invariant Matching(rows, ids[..i], where) == Ok(matched)
    {
      var keep := Passes(where, all[i].1);
      MatchStep(rows, ids, where, i, matched);
      if keep.Err? { return Err(keep.error); }
      if keep.value { matched := matched + [all[i].0]; }
    }
    TakeAll(ids);
    r := Ok(matched);
  }

  // ----- UPDATE -----

  lemma UpdateStep(env: Env, schema: TableSchema, rows: Table, ids: seq<Bytes>, i: nat, sets: seq<Assignment>)
    requires AllIn(ids, rows) && i < |ids|
    ensures AllIn(ids[i..], rows)
    ensures match PrepareUpdate(env, schema, ToRow(rows[ids[i]]), sets)
            case Err(e) => UpdateAll(env, schema, rows, ids[i..], sets) == (rows, Err(e))
            case Ok(pending) =>
              var after := rows[ids[i] := ApplySets(rows[ids[i]], pending)];
              AllIn(ids, after) && AllIn(ids[i + 1..], after)
              && UpdateAll(env, schema, rows, ids[i..], sets) == UpdateAll(env, schema, after, ids[i + 1..], sets)
  {
    DropStep(ids, i);
  }

  method UpdateRows(env: Env, schema: TableSchema, tree: Tree, t: Bytes, ids: seq<Bytes>, sets: seq<Assignment>)
    returns (after: Tree, r: Result<()>)
    requires SafeTable(t) && TableOk(tree, t) && AllIn(ids, Rows(tree, t))
    requires SetsOk(sets)
    ensures TableOk(after, t) && OnlyTable(tree, after, t) && Indexed(after, t) == Indexed(tree, t)
    ensures (Rows(after, t), r) == UpdateAll(env, schema, Rows(tree, t), ids, sets)
  {
    after := tree;
    var indexed := IndexedColumns(tree, t);
    for i := 0 to |ids|
      invariant TableOk(after, t) && OnlyTable(tree, after, t) && Indexed(after, t) == Indexed(tree, t)
      invariant AllIn(ids, Rows(after, t))
      invariant UpdateAll(env, schema, Rows(tree, t), ids, sets) == UpdateAll(env, schema, Rows(after, t), ids[i..], sets)
    {
      RowsIff(after, t, ids[i]);
      UpdateStep(env, schema, Rows(after, t), ids, i, sets);
      var cols := after[PackedKey(t, ids[i])].cols;
      var prepared := PrepareUpdate(env, schema, ToRow(cols), sets);
      if prepared.Err? {
        return after, Err(prepared.error);
      }
      PrepareUpdateDistinct(env, schema, ToRow(cols), sets);
      after := RewriteRow(after, t, ids[i], prepared.value, indexed);
    }
    r := Ok(());
  }

  // ----- DELETE -----

  method DeleteRows(tree: Tree, t: Bytes, ids: seq<Bytes>) returns (after: Tree)
    requires SafeTable(t) && TableOk(tree, t) && AllIn(ids, Rows(tree, t)) && Distinct(ids)
    ensures TableOk(after, t) && OnlyTable(tree, after, t) && Indexed(after, t) == Indexed(tree, t)
    ensures Rows(after, t) == Rows(tree, t) - (set id | id in ids)
  {
    after := tree;
    var indexed := IndexedColumns(tree, t);
    for i := 0 to |ids|
      invariant TableOk(after, t) && OnlyTable(tree, after, t) && Indexed(after, t) == Indexed(tree, t)
      invariant Rows(after, t) == RemoveAll(Rows(tree, t), ids[..i])
    {
      RemoveAllKeys(Rows(tree, t), ids[..i]);
      TakeStep(ids, i);
      after := RemoveRow(after, t, ids[i], indexed);
    }
    TakeAll(ids);
    RemoveAllKeys(Rows(tree, t), ids);
  }

  function RemoveAll(rows: Table, ids: seq<Bytes>): Table {
    if ids == [] then rows else RemoveAll(rows, ids[..|ids| - 1]) - {ids[|ids| - 1]}
  }

  lemma {:induction false} RemoveAllKeys(rows: Table, ids: seq<Bytes>)
    ensures RemoveAll(rows, ids) == rows - (set id | id in ids)
  {
    if ids != [] {
      var n := |ids| - 1;
      RemoveAllKeys(rows, ids[..n]);
      assert ids == ids[..n] + [ids[n]];
      assert (set id | id in ids) == (set id | id in ids[..n]) + {ids[n]};
    }
  }
}
