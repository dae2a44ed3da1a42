/** What the store must look like for its secondary indexes to be exact, and how single writes move it. */
module IndexState {
  import opened ByteStrings
  import opened Values
  import opened Store
  import opened KeySpace
  import opened RowStore

  /** The rows of a table, read off its packed records. */
  function Rows(tree: Tree, t: Bytes): Table {
    map id | id in Under(tree, TablePrefix(t)) && PackedKey(t, id) in tree && tree[PackedKey(t, id)].Packed?
      :: tree[PackedKey(t, id)].cols
  }

  /** Every record under the table prefix is a packed row with a NUL-free id. */
  ghost predicate PackedTable(tree: Tree, t: Bytes) {
    forall id :: PackedKey(t, id) in tree ==> NulFree(id) && tree[PackedKey(t, id)].Packed?
  }

  lemma RowsIff(tree: Tree, t: Bytes, id: Bytes)
    requires PackedTable(tree, t)
    ensures id in Rows(tree, t) <==> PackedKey(t, id) in tree
    ensures id in Rows(tree, t) ==> tree[PackedKey(t, id)] == Packed(Rows(tree, t)[id])
  {
    UnderIff(tree, TablePrefix(t), id);
    assert TablePrefix(t) + id == PackedKey(t, id);
  }

  lemma RowsAreUnder(tree: Tree, t: Bytes)
    requires PackedTable(tree, t)
    ensures Rows(tree, t).Keys == Under(tree, TablePrefix(t))
  {
    forall id ensures id in Rows(tree, t) <==> id in Under(tree, TablePrefix(t)) {
      RowsIff(tree, t, id);
      UnderIff(tree, TablePrefix(t), id);
      assert TablePrefix(t) + id == PackedKey(t, id);
    }
  }

  /** The live entries of an index, as the bytes after the entry prefix. */
  function Entries(tree: Tree, t: Bytes, c: Bytes): set<Bytes> {
    Under(tree, EntryPrefix(t, c))
  }

  /** The indexed columns of a table. */
  function Indexed(tree: Tree, t: Bytes): set<Bytes> {
    Under(tree, MetaPrefix(t))
  }

  /** The index of `c` holds exactly the pairs of the table, and nothing when there is no index. */
  predicate IndexExact(tree: Tree, t: Bytes, c: Bytes) {
    Entries(tree, t, c) == if c in Indexed(tree, t) then IndexOf(Rows(tree, t), c) else {}
  }

  ghost predicate TableOk(tree: Tree, t: Bytes) {
    && PackedTable(tree, t)
    && TableRows(Rows(tree, t))
    && (forall c :: c in Indexed(tree, t) ==> NulFree(c))
    && (forall c {:trigger IndexExact(tree, t, c)} :: NulFree(c) ==> IndexExact(tree, t, c))
  }

  lemma EmptyTableOk(t: Bytes)
    ensures TableOk(map[], t)
  {
    assert Rows(map[], t) == map[];
    assert forall c :: Indexed(map[], t) == {} && Entries(map[], t, c) == {};
  }

  // ----- single writes -----

  lemma RowWriteRows(tree: Tree, t: Bytes, id: Bytes, cols: Cols)
    requires PackedTable(tree, t) && NulFree(id) && NulFree(t)
    ensures var after := tree[PackedKey(t, id) := Packed(cols)];
            PackedTable(after, t) && Rows(after, t) == Rows(tree, t)[id := cols]
  {
    var k := PackedKey(t, id);
    var after := tree[k := Packed(cols)];
    forall x ensures (PackedKey(t, x) == k <==> x == id) { SegInjective(t, x, t, id); }
    forall x
      ensures x in Rows(after, t) <==> x in Rows(tree, t)[id := cols]
      ensures x in Rows(after, t) ==> Rows(after, t)[x] == Rows(tree, t)[id := cols][x]
    {
      RowsIff(tree, t, x);
      RowsIff(after, t, x);
    }
  }

  lemma RowWrite(tree: Tree, t: Bytes, id: Bytes, cols: Cols)
    requires SafeTable(t) && PackedTable(tree, t) && NulFree(id)
    ensures var after := tree[PackedKey(t, id) := Packed(cols)];
            && PackedTable(after, t) && OnlyTable(tree, after, t)
            && Rows(after, t) == Rows(tree, t)[id := cols]
            && Indexed(after, t) == Indexed(tree, t)
            && forall c {:trigger Entries(after, t, c)} :: NulFree(c) ==> Entries(after, t, c) == Entries(tree, t, c)
  {
    var k := PackedKey(t, id);
    var after := tree[k := Packed(cols)];
    RowWriteRows(tree, t, id, cols);
    forall c | NulFree(c) ensures Entries(after, t, c) == Entries(tree, t, c) {
      PackedKeyUnder(t, id, c);
      UnderPut(tree, k, Packed(cols), EntryPrefix(t, c));
    }
    PackedKeyUnder(t, id, []);
    UnderPut(tree, k, Packed(cols), MetaPrefix(t));
  }

  lemma RowRemove(tree: Tree, t: Bytes, id: Bytes)
    requires SafeTable(t) && PackedTable(tree, t)
    ensures var after := tree - {PackedKey(t, id)};
            && PackedTable(after, t) && OnlyTable(tree, after, t)
            && Rows(after, t) == Rows(tree, t) - {id}
            && Indexed(after, t) == Indexed(tree, t)
            && forall c {:trigger Entries(after, t, c)} :: NulFree(c) ==> Entries(after, t, c) == Entries(tree, t, c)
  {
    var k := PackedKey(t, id);
    var after := tree - {k};
    forall x ensures (PackedKey(t, x) == k <==> x == id) { SegInjective(t, x, t, id); }
    forall c | NulFree(c) ensures Entries(after, t, c) == Entries(tree, t, c) {
      PackedKeyUnder(t, id, c);
      UnderRemove(tree, k, EntryPrefix(t, c));
    }
    PackedKeyUnder(t, id, []);
    UnderRemove(tree, k, MetaPrefix(t));
    UnderRemove(tree, k, TablePrefix(t));
    RowsAreUnder(tree, t);
    RowsAreUnder(after, t);
    forall x | x in Rows(after, t) ensures Rows(after, t)[x] == Rows(tree, t)[x] {
      RowsIff(tree, t, x);
      RowsIff(after, t, x);
    }
  }

  /** Both trees hold the same packed rows of `t`. */
  ghost predicate SameRows(a: Tree, b: Tree, t: Bytes) {
    forall k :: TablePrefix(t) <= k ==> (k in a <==> k in b) && (k in a ==> a[k] == b[k])
  }

  lemma SameRowsRows(a: Tree, b: Tree, t: Bytes)
    requires SameRows(a, b, t)
    ensures Rows(a, t) == Rows(b, t)
    ensures PackedTable(a, t) == PackedTable(b, t)
  {
    forall id ensures TablePrefix(t) <= PackedKey(t, id) {}
    forall id ensures id in Under(a, TablePrefix(t)) <==> id in Under(b, TablePrefix(t)) {
      UnderIff(a, TablePrefix(t), id);
      UnderIff(b, TablePrefix(t), id);
      assert TablePrefix(t) <= TablePrefix(t) + id;
    }
  }

  lemma EntryPut(tree: Tree, t: Bytes, col: Bytes, v: Bytes, id: Bytes)
    requires SafeTable(t) && NulFree(col)
    ensures var after := tree[EntryKey(t, col, v, id) := Raw([])];
            && SameRows(tree, after, t) && OnlyTable(tree, after, t)
            && Indexed(after, t) == Indexed(tree, t)
            && forall c {:trigger Entries(after, t, c)} :: NulFree(c) ==>
                Entries(after, t, c) == if c == col then Entries(tree, t, c) + {Seg(v, id)} else Entries(tree, t, c)
  {
    var k := EntryKey(t, col, v, id);
    forall c | NulFree(c)
      ensures Entries(tree[k := Raw([])], t, c) == if c == col then Entries(tree, t, c) + {Seg(v, id)} else Entries(tree, t, c)
    {
      EntryKeyUnder(t, col, v, id, c);
      UnderPut(tree, k, Raw([]), EntryPrefix(t, c));
    }
    EntryKeyUnder(t, col, v, id, []);
    UnderPut(tree, k, Raw([]), MetaPrefix(t));
    EntryOwned(t, col, v, id);
  }

  lemma EntryRemove(tree: Tree, t: Bytes, col: Bytes, v: Bytes, id: Bytes)
    requires SafeTable(t) && NulFree(col)
    ensures var after := tree - {EntryKey(t, col, v, id)};
            && SameRows(tree, after, t) && OnlyTable(tree, after, t)
            && Indexed(after, t) == Indexed(tree, t)
            && forall c {:trigger Entries(after, t, c)} :: NulFree(c) ==>
                Entries(after, t, c) == if c == col then Entries(tree, t, c) - {Seg(v, id)} else Entries(tree, t, c)
  {
    var k := EntryKey(t, col, v, id);
    forall c | NulFree(c)
      ensures Entries(tree - {k}, t, c) == if c == col then Entries(tree, t, c) - {Seg(v, id)} else Entries(tree, t, c)
    {
      EntryKeyUnder(t, col, v, id, c);
      UnderRemove(tree, k, EntryPrefix(t, c));
    }
    EntryKeyUnder(t, col, v, id, []);
    UnderRemove(tree, k, MetaPrefix(t));
    EntryOwned(t, col, v, id);
  }

  lemma EntryOwned(t: Bytes, col: Bytes, v: Bytes, id: Bytes)
    ensures Owned(t, EntryKey(t, col, v, id))
  {
    assert Seg(t, []) <= Seg(t, Seg(col, Seg(v, id)));
    assert Seg(IDX, Seg(t, [])) <= EntryKey(t, col, v, id);
  }

  lemma MetaPut(tree: Tree, t: Bytes, col: Bytes, r: Record)
    requires SafeTable(t)
    ensures var after := tree[MetaKey(t, col) := r];
            && SameRows(tree, after, t) && OnlyTable(tree, after, t)
            && Indexed(after, t) == Indexed(tree, t) + {col}
            && forall c {:trigger Entries(after, t, c)} :: NulFree(c) ==> Entries(after, t, c) == Entries(tree, t, c)
  {
    var k := MetaKey(t, col);
    forall c | NulFree(c) ensures Entries(tree[k := r], t, c) == Entries(tree, t, c) {
      MetaKeyUnder(t, col, c);
      UnderPut(tree, k, r, EntryPrefix(t, c));
    }
    MetaKeyUnder(t, col, []);
    UnderPut(tree, k, r, MetaPrefix(t));
  }

  lemma OnlyTableTransitive(a: Tree, b: Tree, c: Tree, t: Bytes)
    requires OnlyTable(a, b, t) && OnlyTable(b, c, t)
    ensures OnlyTable(a, c, t)
  {
  }

  /** A statement on one table leaves every other table and its indexes as they were. */
  lemma OtherTableKept(before: Tree, after: Tree, t: Bytes, u: Bytes)
    requires SafeTable(t) && SafeTable(u) && t != u && OnlyTable(before, after, t)
    ensures Rows(before, u) == Rows(after, u) && Indexed(before, u) == Indexed(after, u)
    ensures TableOk(before, u) ==> TableOk(after, u)
  {
    UnderApart(before, after, t, u, []);
    assert SameRows(before, after, u);
    SameRowsRows(before, after, u);
    if TableOk(before, u) {
      forall c | NulFree(c) ensures IndexExact(after, u, c) {
        UnderApart(before, after, t, u, c);
        assert IndexExact(before, u, c);
      }
    }
  }

  // ----- steps that write only index entries -----

  /** A step that writes only index entries of `t`: rows and index catalogue stay as they were. */
  ghost predicate IndexStep(before: Tree, after: Tree, t: Bytes) {
    SameRows(before, after, t) && OnlyTable(before, after, t) && Indexed(before, t) == Indexed(after, t)
  }

  /** The index of one column loses the entries `gone` and gains `added`. */
  ghost predicate EntryChange(before: Tree, after: Tree, t: Bytes, col: Bytes, gone: set<Bytes>, added: set<Bytes>) {
    && IndexStep(before, after, t)
    && Entries(after, t, col) == Entries(before, t, col) - gone + added
    && forall c {:trigger Entries(after, t, c)} :: NulFree(c) && c != col ==> Entries(after, t, c) == Entries(before, t, c)
  }

  lemma EntryChangeAdds(a: Tree, b: Tree, c: Tree, t: Bytes, col: Bytes, x: set<Bytes>, y: set<Bytes>)
    requires EntryChange(a, b, t, col, {}, x) && EntryChange(b, c, t, col, {}, y)
    ensures EntryChange(a, c, t, col, {}, x + y)
  {
  }
}
