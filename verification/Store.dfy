/** The storage engine as its callers see it: a map of live keys, scanned in key order. */
module Store {
  import opened ByteStrings
  import opened Values
  import RowPack

  /** A stored value: a packed row record, or the raw bytes of anything else. */
  datatype Record = Packed(cols: Cols) | Raw(bytes: Bytes)

  type Tree = map<Bytes, Record>

  function RecordBytes(r: Record): Bytes {
    match r case Raw(b) => b case Packed(cols) => RowPack.EncodeRow(cols)
  }

  function KeysInRange(tree: Tree, start: Bytes, end: Bytes): set<Bytes> {
    set k | k in tree && Leq(start, k) && Less(k, end)
  }

  /** Keys of `[start, end)` in iteration order. */
  function Range(tree: Tree, start: Bytes, end: Bytes): (r: seq<Bytes>)
    ensures forall k :: k in r <==> k in tree && Leq(start, k) && Less(k, end)
  {
    SortedKeys(KeysInRange(tree, start, end))
  }

  function KeysUnder(tree: Tree, p: Bytes): set<Bytes> {
    set k | k in tree && p <= k
  }

  /** A range scan bounded by `PrefixEnd` visits exactly the keys under the prefix. */
  lemma RangeIsPrefix(tree: Tree, p: Bytes)
    requires Bounded(p)
    ensures Range(tree, p, PrefixEnd(p)) == SortedKeys(KeysUnder(tree, p))
  {
    forall k ensures k in KeysInRange(tree, p, PrefixEnd(p)) <==> k in KeysUnder(tree, p) {
      PrefixRange(p, k);
    }
    assert KeysInRange(tree, p, PrefixEnd(p)) == KeysUnder(tree, p);
  }

  lemma SegBounded(p: Bytes)
    ensures Bounded(p + [NUL])
  {
    assert (p + [NUL])[|p|] == NUL;
  }
}
