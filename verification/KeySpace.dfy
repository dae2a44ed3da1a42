/** Storage keys of rows, cells, index entries and index metadata, and what lives under a prefix. */
module KeySpace {
  import opened ByteStrings
  import opened Values
  import opened Store

  const IDX: Bytes := [2, 105, 100, 120]
  const IDX_META: Bytes := [2, 105, 100, 120, 95, 109, 101, 116, 97]
  const PK_META: Bytes := [2, 112, 107, 95, 109, 101, 116, 97]

  function TablePrefix(t: Bytes): Bytes { Seg(t, []) }
  function PackedKey(t: Bytes, id: Bytes): Bytes { Seg(t, id) }
  function RowPrefix(t: Bytes, id: Bytes): Bytes { Seg(t, Seg(id, [])) }
  function CellKey(t: Bytes, id: Bytes, c: Bytes): Bytes { Seg(t, Seg(id, c)) }
  function MetaPrefix(t: Bytes): Bytes { Seg(IDX_META, Seg(t, [])) }
  function MetaKey(t: Bytes, c: Bytes): Bytes { Seg(IDX_META, Seg(t, c)) }
  function EntryPrefix(t: Bytes, c: Bytes): Bytes { Seg(IDX, Seg(t, Seg(c, []))) }
  function EntryKey(t: Bytes, c: Bytes, v: Bytes, id: Bytes): Bytes { Seg(IDX, Seg(t, Seg(c, Seg(v, id)))) }
  function MarkerKey(t: Bytes): Bytes { Seg(PK_META, t) }

  /** Table names that cannot be confused with the engine's own key spaces. */
  predicate SafeTable(t: Bytes) {
    NulFree(t) && t != IDX && t != IDX_META && t != PK_META
  }

  /** Index entries are recovered from their keys, whatever the cell holds, as long as row ids are NUL-free. */
  lemma EntryKeyInjective(t: Bytes, c: Bytes, v: Bytes, id: Bytes, t': Bytes, c': Bytes, v': Bytes, id': Bytes)
    requires NulFree(t) && NulFree(c) && NulFree(id) && NulFree(t') && NulFree(c') && NulFree(id')
    ensures EntryKey(t, c, v, id) == EntryKey(t', c', v', id') <==> t == t' && c == c' && v == v' && id == id'
  {
    SegInjective(IDX, Seg(t, Seg(c, Seg(v, id))), IDX, Seg(t', Seg(c', Seg(v', id'))));
    SegInjective(t, Seg(c, Seg(v, id)), t', Seg(c', Seg(v', id')));
    SegInjective(c, Seg(v, id), c', Seg(v', id'));
    SegTailInjective(v, id, v', id');
  }

  /** Row ids 7 and \0 7 with a zero byte and an empty cell: two different pairs share one entry key. */
  lemma EntryKeyCollision(t: Bytes, c: Bytes)
    ensures EntryKey(t, c, [0], [7]) == EntryKey(t, c, [], [0, 7])
  {
    assert Seg([0], [7]) == [0, 0, 7] == Seg([], [0, 7]);
  }

  /** The id ends in a zero byte followed by the other id. */
  predicate EndsIn(long: Bytes, short: Bytes) {
    |short| < |long| && long[|long| - |short| - 1..] == [NUL] + short
  }

  lemma {:induction false} SharedTail(v: Bytes, id: Bytes, v': Bytes, id': Bytes)
    requires Seg(v, id) == Seg(v', id') && |v| <= |v'|
    ensures id == id' || EndsIn(id, id')
  {
    var s := Seg(v, id);
    if |v| < |v'| {
      var n := |v'| - |v| - 1;
      assert s[|v| + 1..] == id && s[|v'| + 1..] == id' && s[|v'|] == NUL;
      assert id[n..] == s[|v'|..] == [NUL] + id';
    } else {
      assert s[|v| + 1..] == id && s[|v'| + 1..] == id';
    }
  }

  /** Entries of two row ids can share a key exactly when one id is the other, or ends in a zero byte and the other. */
  lemma EntryKeyShared(t: Bytes, c: Bytes, id: Bytes, id': Bytes)
    ensures (exists v, v' :: EntryKey(t, c, v, id) == EntryKey(t, c, v', id')) <==> id == id' || EndsIn(id, id') || EndsIn(id', id)
  {
    if v, v' :| EntryKey(t, c, v, id) == EntryKey(t, c, v', id') {
      EntryTail(t, c, v, id, v', id');
      if |v| <= |v'| { SharedTail(v, id, v', id'); } else { SharedTail(v', id', v, id); }
    }
    if id == id' {
      assert EntryKey(t, c, [], id) == EntryKey(t, c, [], id');
    } else if EndsIn(id, id') {
      var v := EndingShares(id, id');
      assert EntryKey(t, c, [], id) == EntryKey(t, c, v, id');
    } else if EndsIn(id', id) {
      var v := EndingShares(id', id);
      assert EntryKey(t, c, v, id) == EntryKey(t, c, [], id');
    }
  }

  lemma EndingShares(long: Bytes, short: Bytes) returns (v: Bytes)
    requires EndsIn(long, short)
    ensures Seg([], long) == Seg(v, short)
  {
    var n := |long| - |short| - 1;
    v := [NUL] + long[..n];
    assert long == long[..n] + long[n..];
  }

  lemma EntryTail(t: Bytes, c: Bytes, v: Bytes, id: Bytes, v': Bytes, id': Bytes)
    requires EntryKey(t, c, v, id) == EntryKey(t, c, v', id')
    ensures Seg(v, id) == Seg(v', id')
  {
    var k := EntryKey(t, c, v, id);
    var n := |IDX| + |t| + |c| + 3;
    assert k[n..] == Seg(v, id) && k[n..] == Seg(v', id');
  }

  // ----- the suffixes stored under a prefix -----

  function Under(tree: Tree, p: Bytes): set<Bytes> {
    set k | k in tree && p <= k :: k[|p|..]
  }

  lemma UnderIff(tree: Tree, p: Bytes, x: Bytes)
    ensures x in Under(tree, p) <==> p + x in tree
  {
    if x in Under(tree, p) {
      var k :| k in tree && p <= k && k[|p|..] == x;
      assert k == p + x;
    }
    if p + x in tree {
      assert (p + x)[|p|..] == x;
    }
  }

  lemma UnderPut(tree: Tree, k: Bytes, r: Record, p: Bytes)
    ensures Under(tree[k := r], p) == if p <= k then Under(tree, p) + {k[|p|..]} else Under(tree, p)
  {
    forall x ensures x in Under(tree[k := r], p) <==> x in Under(tree, p) || (p <= k && x == k[|p|..]) {
      UnderIff(tree, p, x);
      UnderIff(tree[k := r], p, x);
      assert p + x == k <==> p <= k && x == k[|p|..];
    }
  }

  lemma UnderRemove(tree: Tree, k: Bytes, p: Bytes)
    ensures Under(tree - {k}, p) == if p <= k then Under(tree, p) - {k[|p|..]} else Under(tree, p)
  {
    forall x ensures x in Under(tree - {k}, p) <==> x in Under(tree, p) && !(p <= k && x == k[|p|..]) {
      UnderIff(tree, p, x);
      UnderIff(tree - {k}, p, x);
      assert p + x == k <==> p <= k && x == k[|p|..];
    }
  }

  /** The bounded scan of a prefix: keys of `[p, PrefixEnd(p))` that start with `p`, without the prefix. */
  method ScanSuffixes(tree: Tree, p: Bytes) returns (xs: seq<Bytes>)
    requires Bounded(p)
    ensures xs == SortedKeys(Under(tree, p))
  {
    var end := ComputePrefixEnd(p);
    var keys := Range(tree, p, end);
    xs := [];
    for i := 0 to |keys|
      invariant xs == Strip(p, keys[..i])
    {
      if p <= keys[i] {
        xs := xs + [keys[i][|p|..]];
      }
      TakeStep(keys, i);
    }
    TakeAll(keys);
    RangeIsPrefix(tree, p);
    StripListing(tree, p);
  }

  /** The keys that start with `p`, without it. */
  function Strip(p: Bytes, keys: seq<Bytes>): seq<Bytes> {
    if keys == [] then []
    else
      var n := |keys| - 1;
      Strip(p, keys[..n]) + if p <= keys[n] then [keys[n][|p|..]] else []
  }

  lemma {:induction false} StripAll(p: Bytes, keys: seq<Bytes>)
    requires forall i :: 0 <= i < |keys| ==> p <= keys[i]
    ensures |Strip(p, keys)| == |keys| && forall i :: 0 <= i < |keys| ==> keys[i] == p + Strip(p, keys)[i]
  {
    if keys != [] {
      var n := |keys| - 1;
      StripAll(p, keys[..n]);
      assert keys[n] == p + keys[n][|p|..];
    }
  }

  lemma StripListing(tree: Tree, p: Bytes)
    ensures Strip(p, SortedKeys(KeysUnder(tree, p))) == SortedKeys(Under(tree, p))
  {
    var keys := SortedKeys(KeysUnder(tree, p));
    assert forall i :: 0 <= i < |keys| ==> keys[i] in keys;
    StripAll(p, keys);
    SortedAscending(KeysUnder(tree, p));
    SortedAscending(Under(tree, p));
    StripSorted(p, keys);
    StripUnder(tree, p);
    AscendingUnique(Strip(p, keys), SortedKeys(Under(tree, p)));
  }

  lemma StripSorted(p: Bytes, keys: seq<Bytes>)
    requires forall i :: 0 <= i < |keys| ==> p <= keys[i]
    requires Ascending(keys)
    ensures Ascending(Strip(p, keys))
  {
    var xs := Strip(p, keys);
    StripAll(p, keys);
    forall i, j | 0 <= i < j < |xs| ensures Less(xs[i], xs[j]) {
      LessCommonPrefix(p, xs[i], xs[j]);
    }
  }

  lemma StripUnder(tree: Tree, p: Bytes)
    ensures var keys := SortedKeys(KeysUnder(tree, p));
            forall x :: x in Strip(p, keys) <==> x in Under(tree, p)
  {
    var keys := SortedKeys(KeysUnder(tree, p));
    var xs := Strip(p, keys);
    assert forall i :: 0 <= i < |keys| ==> keys[i] in keys;
    StripAll(p, keys);
    forall x ensures x in xs <==> x in Under(tree, p) {
      UnderIff(tree, p, x);
      if x in xs {
        var i :| 0 <= i < |xs| && xs[i] == x;
        assert keys[i] in keys;
      }
      if p + x in tree {
        assert p + x in KeysUnder(tree, p);
        assert p + x in keys;
        var i :| 0 <= i < |keys| && keys[i] == p + x;
        assert p + xs[i] == p + x;
        assert xs[i] == (p + xs[i])[|p|..] == x;
      }
    }
  }

  // ----- which prefix a key is under -----

  lemma PackedKeyUnder(t: Bytes, id: Bytes, c: Bytes)
    requires SafeTable(t) && NulFree(c)
    ensures TablePrefix(t) <= PackedKey(t, id) && PackedKey(t, id)[|TablePrefix(t)|..] == id
    ensures !(MetaPrefix(t) <= PackedKey(t, id)) && !(EntryPrefix(t, c) <= PackedKey(t, id))
  {
    SegPrefix(IDX_META, Seg(t, []), t, id);
    SegPrefix(IDX, Seg(t, Seg(c, [])), t, id);
  }

  lemma MetaKeyUnder(t: Bytes, col: Bytes, c: Bytes)
    requires SafeTable(t) && NulFree(c)
    ensures MetaPrefix(t) <= MetaKey(t, col) && MetaKey(t, col)[|MetaPrefix(t)|..] == col
    ensures !(TablePrefix(t) <= MetaKey(t, col)) && !(EntryPrefix(t, c) <= MetaKey(t, col))
  {
    SegPrefix(t, [], IDX_META, Seg(t, col));
    SegPrefix(IDX, Seg(t, Seg(c, [])), IDX_META, Seg(t, col));
  }

  lemma EntryKeyUnder(t: Bytes, col: Bytes, v: Bytes, id: Bytes, c: Bytes)
    requires SafeTable(t) && NulFree(c) && NulFree(col)
    ensures !(TablePrefix(t) <= EntryKey(t, col, v, id)) && !(MetaPrefix(t) <= EntryKey(t, col, v, id))
    ensures EntryPrefix(t, c) <= EntryKey(t, col, v, id) <==> c == col
    ensures c == col ==> EntryKey(t, col, v, id)[|EntryPrefix(t, c)|..] == Seg(v, id)
  {
    SegPrefix(t, [], IDX, Seg(t, Seg(col, Seg(v, id))));
    SegPrefix(IDX_META, Seg(t, []), IDX, Seg(t, Seg(col, Seg(v, id))));
    SegPrefix(IDX, Seg(t, Seg(c, [])), IDX, Seg(t, Seg(col, Seg(v, id))));
    SegPrefix(t, Seg(c, []), t, Seg(col, Seg(v, id)));
    SegPrefix(c, [], col, Seg(v, id));
  }

  // ----- keys owned by one table -----

  predicate Owned(t: Bytes, k: Bytes) {
    TablePrefix(t) <= k || MetaPrefix(t) <= k || Seg(IDX, Seg(t, [])) <= k
  }

  /** Two states that differ only in keys owned by table `t`. */
  ghost predicate OnlyTable(before: Tree, after: Tree, t: Bytes) {
    forall k :: !Owned(t, k) ==> (k in before <==> k in after) && (k in before ==> before[k] == after[k])
  }

  lemma OwnedSeg(t: Bytes, head: Bytes, x: Bytes)
    requires SafeTable(t) && NulFree(head)
    ensures Owned(t, Seg(head, x)) <==> head == t || ((head == IDX_META || head == IDX) && Seg(t, []) <= x)
  {
    SegPrefix(t, [], head, x);
    SegPrefix(IDX_META, Seg(t, []), head, x);
    SegPrefix(IDX, Seg(t, []), head, x);
  }

  lemma SplitAfter(a: Bytes, rest: Bytes, k: Bytes) returns (x: Bytes)
    requires Seg(a, rest) <= k
    ensures k == Seg(a, x) && rest <= x
  {
    x := k[|a| + 1..];
    assert forall i :: 0 <= i < |Seg(a, rest)| ==> k[i] == Seg(a, rest)[i];
  }

  lemma OwnedApart(t: Bytes, u: Bytes, c: Bytes, k: Bytes)
    requires SafeTable(t) && SafeTable(u) && t != u && NulFree(c)
    requires TablePrefix(u) <= k || MetaPrefix(u) <= k || EntryPrefix(u, c) <= k
    ensures !Owned(t, k)
  {
    if TablePrefix(u) <= k {
      var x := SplitAfter(u, [], k);
      OwnedSeg(t, u, x);
    } else {
      var head, rest := if MetaPrefix(u) <= k then IDX_META else IDX, if MetaPrefix(u) <= k then Seg(u, []) else Seg(u, Seg(c, []));
      var x := SplitAfter(head, rest, k);
      var y := SplitAfter(u, rest[|u| + 1..], x);
      OwnedSeg(t, head, x);
      SegPrefix(t, [], u, y);
    }
  }

  /** What lies under another table's prefixes is untouched. */
  lemma UnderApart(before: Tree, after: Tree, t: Bytes, u: Bytes, c: Bytes)
    requires SafeTable(t) && SafeTable(u) && t != u && NulFree(c)
    requires OnlyTable(before, after, t)
    ensures Under(before, TablePrefix(u)) == Under(after, TablePrefix(u))
    ensures Under(before, MetaPrefix(u)) == Under(after, MetaPrefix(u))
    ensures Under(before, EntryPrefix(u, c)) == Under(after, EntryPrefix(u, c))
    ensures forall k :: TablePrefix(u) <= k ==> (k in before <==> k in after) && (k in before ==> before[k] == after[k])
  {
    forall k | TablePrefix(u) <= k || MetaPrefix(u) <= k || EntryPrefix(u, c) <= k ensures !Owned(t, k) {
      OwnedApart(t, u, c, k);
    }
    forall p, x | p in {TablePrefix(u), MetaPrefix(u), EntryPrefix(u, c)}
      ensures x in Under(before, p) <==> x in Under(after, p)
    {
      UnderIff(before, p, x);
      UnderIff(after, p, x);
      assert p <= p + x;
    }
  }
}
