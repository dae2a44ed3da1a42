/** Loading a table: entries grouped into rows, serially or by a parallel fold and reduce. */
module TableScan {
  import opened ByteStrings
  import opened Values

  /** One storage entry under the table prefix, not yet assembled into a row. */
  datatype Entry =
    | PackedEntry(rowId: Bytes, cols: Cols)
    | CellEntry(rowId: Bytes, col: Bytes, cell: Bytes)

  /** What has been gathered for one row: the packed record, and the cells that override it. */
  datatype Slot = Slot(packed: Option<Row>, cells: Row)

  type Grouped = map<Bytes, Slot>

  const EMPTY_SLOT := Slot(None, [])

  function SlotOf(g: Grouped, id: Bytes): Slot {
    if id in g then g[id] else EMPTY_SLOT
  }

  predicate Wanted(columns: Option<seq<Bytes>>, name: Bytes) {
    columns.None? || name in columns.value
  }

  /** Decode a packed record, keeping only the wanted columns. */
  function DecodePacked(cols: Cols, columns: Option<seq<Bytes>>): Row {
    if cols == [] then []
    else if Wanted(columns, cols[0].0) then [(cols[0].0, Text(cols[0].1))] + DecodePacked(cols[1..], columns)
    else DecodePacked(cols[1..], columns)
  }

  lemma {:induction false} DecodeAll(cols: Cols)
    ensures DecodePacked(cols, None) == ToRow(cols)
  {
    if cols != [] {
      DecodeAll(cols[1..]);
    }
  }

  function Ingest(acc: Grouped, e: Entry, columns: Option<seq<Bytes>>): Grouped {
    var slot := SlotOf(acc, e.rowId);
    acc[e.rowId := match e
                   case PackedEntry(_, cols) => slot.(packed := Some(DecodePacked(cols, columns)))
                   case CellEntry(_, col, cell) => slot.(cells := slot.cells + [(col, Text(cell))])]
  }

  /** Serial grouping: every entry ingested in order. */
  function Group(entries: seq<Entry>, columns: Option<seq<Bytes>>): Grouped {
    if entries == [] then map[]
    else Ingest(Group(entries[..|entries| - 1], columns), entries[|entries| - 1], columns)
  }

  function MergeSlots(a: Slot, b: Slot): Slot {
    Slot(if b.packed.Some? then b.packed else a.packed, a.cells + b.cells)
  }

  function MergeGrouped(l: Grouped, r: Grouped): Grouped {
    map k | k in l.Keys + r.Keys :: MergeSlots(SlotOf(l, k), SlotOf(r, k))
  }

  // ----- the grouping monoid -----

  lemma MergeIdentity(g: Grouped)
    ensures MergeGrouped(g, map[]) == g && MergeGrouped(map[], g) == g
  {
    forall k | k in g ensures MergeSlots(g[k], EMPTY_SLOT) == g[k] == MergeSlots(EMPTY_SLOT, g[k]) {
      assert g[k].cells + [] == g[k].cells == [] + g[k].cells;
    }
  }

  lemma MergeSlotsAssociative(x: Slot, y: Slot, z: Slot)
    ensures MergeSlots(MergeSlots(x, y), z) == MergeSlots(x, MergeSlots(y, z))
  {
    assert (x.cells + y.cells) + z.cells == x.cells + (y.cells + z.cells);
  }

  lemma MergeAssociative(a: Grouped, b: Grouped, c: Grouped)
    ensures MergeGrouped(MergeGrouped(a, b), c) == MergeGrouped(a, MergeGrouped(b, c))
  {
    var ab, bc := MergeGrouped(a, b), MergeGrouped(b, c);
    var l, r := MergeGrouped(ab, c), MergeGrouped(a, bc);
    forall k | k in l.Keys ensures l[k] == r[k] {
      SlotOfMerge(a, b, k);
      SlotOfMerge(b, c, k);
      MergeSlotsAssociative(SlotOf(a, k), SlotOf(b, k), SlotOf(c, k));
    }
    assert l.Keys == r.Keys;
  }

  lemma SlotOfMerge(a: Grouped, b: Grouped, k: Bytes)
    ensures SlotOf(MergeGrouped(a, b), k) == MergeSlots(SlotOf(a, k), SlotOf(b, k))
  {
    assert EMPTY_SLOT.cells + [] == [];
  }

  /** One ingested entry is the merge with a group of that entry alone. */
  lemma IngestIsMerge(g: Grouped, e: Entry, columns: Option<seq<Bytes>>)
    ensures Ingest(g, e, columns) == MergeGrouped(g, Ingest(map[], e, columns))
  {
    var one := Ingest(map[], e, columns);
    assert one.Keys == {e.rowId};
    var m := MergeGrouped(g, one);
    forall k | k in m ensures m[k] == Ingest(g, e, columns)[k] {
      if k == e.rowId {
        var cs := SlotOf(g, k).cells;
        assert cs + [] == cs;
        if e.CellEntry? { assert EMPTY_SLOT.cells + [(e.col, Text(e.cell))] == [(e.col, Text(e.cell))]; }
      } else {
        assert g[k].cells + [] == g[k].cells;
      }
    }
  }

  /** Grouping turns concatenation of entry lists into merging of groups. */
  lemma {:induction false} GroupHomomorphism(a: seq<Entry>, b: seq<Entry>, columns: Option<seq<Bytes>>)
    ensures Group(a + b, columns) == MergeGrouped(Group(a, columns), Group(b, columns))
    decreases |b|
  {
    if b == [] {
      assert a + b == a;
      MergeIdentity(Group(a, columns));
    } else {
      var n := |b| - 1;
      var e := b[n];
      assert (a + b)[..|a + b| - 1] == a + b[..n];
      GroupHomomorphism(a, b[..n], columns);
      var ga, gb, one := Group(a, columns), Group(b[..n], columns), Ingest(map[], e, columns);
      IngestIsMerge(MergeGrouped(ga, gb), e, columns);
      IngestIsMerge(gb, e, columns);
      MergeAssociative(ga, gb, one);
    }
  }

  // ----- parallel fold and reduce -----

  /** A schedule: contiguous chunks at the leaves, combined pairwise and in order. */
  datatype Schedule = Chunk(entries: seq<Entry>) | Reduce(left: Schedule, right: Schedule)

  function ScheduleEntries(s: Schedule): seq<Entry> {
    match s
    case Chunk(es) => es
    case Reduce(l, r) => ScheduleEntries(l) + ScheduleEntries(r)
  }

  lemma AbsorbKey(left: Grouped, sub: Grouped, k: Bytes, slot: Slot)
    requires k !in sub
    ensures MergeGrouped(left, sub)[k := MergeSlots(SlotOf(left, k), slot)] == MergeGrouped(left, sub[k := slot])
  {
    var l, r := MergeGrouped(left, sub)[k := MergeSlots(SlotOf(left, k), slot)], MergeGrouped(left, sub[k := slot]);
    assert l.Keys == r.Keys;
    forall x | x in l ensures l[x] == r[x] {
      assert x != k ==> SlotOf(sub[k := slot], x) == SlotOf(sub, x);
    }
  }

  /** Fold the right groups into the left ones, whatever the order in which they are visited. */
  method MergeInto(left: Grouped, right: Grouped) returns (merged: Grouped)
    ensures merged == MergeGrouped(left, right)
  {
    merged := left;
    var todo := right.Keys;
    MergeIdentity(left);
    assert right - todo == map[];
    while todo != {}
      invariant todo <= right.Keys
      invariant merged == MergeGrouped(left, right - todo)
    {
      var k :| k in todo;
      var slot := SlotOf(merged, k);
      SlotOfMerge(left, right - todo, k);
      assert SlotOf(left, k).cells + [] == SlotOf(left, k).cells;
      if right[k].packed.Some? {
        slot := slot.(packed := right[k].packed);
      }
      slot := slot.(cells := slot.cells + right[k].cells);
      AbsorbKey(left, right - todo, k, right[k]);
      assert right - (todo - {k}) == (right - todo)[k := right[k]];
      merged, todo := merged[k := slot], todo - {k};
    }
    assert right - todo == right;
  }

  method GroupSerial(entries: seq<Entry>, columns: Option<seq<Bytes>>) returns (g: Grouped)
    ensures g == Group(entries, columns)
  {
    g := map[];
    for i := 0 to |entries|
      invariant g == Group(entries[..i], columns)
    {
      g := Ingest(g, entries[i], columns);
      TakeStep(entries, i);
    }
    TakeAll(entries);
  }

  /** Every split of the entries into chunks and every reduction tree gives the serial grouping. */
  method GroupParallel(s: Schedule, columns: Option<seq<Bytes>>) returns (g: Grouped)
    ensures g == Group(ScheduleEntries(s), columns)
  {
    match s
    case Chunk(es) => g := GroupSerial(es, columns);
    case Reduce(l, r) =>
      var gl := GroupParallel(l, columns);
      var gr := GroupParallel(r, columns);
      g := MergeInto(gl, gr);
      GroupHomomorphism(ScheduleEntries(l), ScheduleEntries(r), columns);
  }

  // ----- rows -----

  /** Cells override packed columns of the same name and follow them otherwise. */
  function Override(row: Row, cells: Row): Row
    decreases |cells|
  {
    if cells == [] then row
    else Override(SetColumn(row, cells[0].0, cells[0].1), cells[1..])
  }

  function MergeRow(slot: Slot): Row {
    if slot.packed.None? then slot.cells else Override(slot.packed.value, slot.cells)
  }

  function RowsFor(g: Grouped, ids: seq<Bytes>): (rows: seq<Row>)
    requires forall id :: id in ids ==> id in g
    ensures |rows| == |ids| && forall i :: 0 <= i < |ids| ==> rows[i] == MergeRow(g[ids[i]])
  {
    if ids == [] then [] else [MergeRow(g[ids[0]])] + RowsFor(g, ids[1..])
  }

  /** Assembled rows, in row-id order. */
  function AssembleRows(g: Grouped): seq<Row> {
    RowsFor(g, SortedKeys(g.Keys))
  }

  /** The parallel load returns the rows of the serial load, in the same order. */
  method LoadParallel(s: Schedule, columns: Option<seq<Bytes>>) returns (rows: seq<Row>)
    ensures rows == AssembleRows(Group(ScheduleEntries(s), columns))
  {
    var g := GroupParallel(s, columns);
    var ids := SortedKeys(g.Keys);
    rows := [];
    for i := 0 to |ids|
      invariant |rows| == i && forall j :: 0 <= j < i ==> rows[j] == MergeRow(g[ids[j]])
    {
      rows := rows + [MergeRow(g[ids[i]])];
    }
  }
}
