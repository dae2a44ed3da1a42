/** ORDER BY: how rows compare, and the fused top-k sort. */
module SortOrder {
  import opened ByteStrings
  import opened Values
  import opened Columns
  import opened Sorting

  datatype Ordering = Lesser | Same | Greater

  function Reversed(o: Ordering): Ordering {
    match o case Lesser => Greater case Same => Same case Greater => Lesser
  }

  function CompareBytes(a: Bytes, b: Bytes): Ordering {
    if a == b then Same else if Less(a, b) then Lesser else Greater
  }

  /** NULLs last, and missing cells after NULLs. */
  function CompareCells(env: Env, a: Option<Value>, b: Option<Value>): Ordering {
    match (a, b)
    case (None, None) => Same
    case (Some(Null), Some(Null)) => Same
    case (None, Some(_)) => Greater
    case (Some(Null), Some(_)) => Greater
    case (Some(_), None) => Lesser
    case (Some(_), Some(Null)) => Lesser
    case (Some(x), Some(y)) => CompareBytes(AsBytes(env, x), AsBytes(env, y))
  }

  /** Sort columns, each with its direction: ascending when true. */
  type SortKeys = seq<(Bytes, bool)>

  function CompareOn(env: Env, key: (Bytes, bool), a: Row, b: Row): Ordering {
    var o := CompareCells(env, FindMatch(a, key.0), FindMatch(b, key.0));
    if key.1 then o else Reversed(o)
  }

  /** The first key that tells the rows apart decides. */
  function Compare(env: Env, keys: SortKeys, a: Row, b: Row): Ordering {
    if keys == [] then Same
    else
      var o := CompareOn(env, keys[0], a, b);
      if o != Same then o else Compare(env, keys[1..], a, b)
  }

  method CompareRows(env: Env, keys: SortKeys, a: Row, b: Row) returns (o: Ordering)
    ensures o == Compare(env, keys, a, b)
  {
    for i := 0 to |keys|
      invariant Compare(env, keys, a, b) == Compare(env, keys[i..], a, b)
    {
      DropStep(keys, i);
      var (column, ascending) := keys[i];
      o := CompareCells(env, FindMatch(a, column), FindMatch(b, column));
      if o != Same { return if ascending then o else Reversed(o); }
    }
    o := Same;
  }

  function RowOrder(env: Env, keys: SortKeys): (Row, Row) -> bool {
    (a, b) => Compare(env, keys, a, b) != Greater
  }

  // ----- the comparison is a total preorder -----

  lemma CompareCellsOrder(env: Env, a: Option<Value>, b: Option<Value>, c: Option<Value>)
    ensures CompareCells(env, b, a) == Reversed(CompareCells(env, a, b))
    ensures CompareCells(env, a, b) != Greater && CompareCells(env, b, c) != Greater ==> CompareCells(env, a, c) != Greater
    ensures CompareCells(env, a, b) == Lesser && CompareCells(env, b, c) != Greater ==> CompareCells(env, a, c) == Lesser
    ensures CompareCells(env, a, b) != Greater && CompareCells(env, b, c) == Lesser ==> CompareCells(env, a, c) == Lesser
  {
    if a.Some? && b.Some? {
      var x, y := AsBytes(env, a.value), AsBytes(env, b.value);
      Trichotomy(x, y);
      if c.Some? {
        var z := AsBytes(env, c.value);
        Trichotomy(x, z);
        Trichotomy(y, z);
        if Leq(x, y) && Leq(y, z) { LeqTransitive(x, y, z); }
      }
    }
  }

  lemma CompareOnOrder(env: Env, key: (Bytes, bool), a: Row, b: Row, c: Row)
    ensures CompareOn(env, key, b, a) == Reversed(CompareOn(env, key, a, b))
    ensures CompareOn(env, key, a, b) != Greater && CompareOn(env, key, b, c) != Greater ==> CompareOn(env, key, a, c) != Greater
    ensures CompareOn(env, key, a, b) == Lesser && CompareOn(env, key, b, c) != Greater ==> CompareOn(env, key, a, c) == Lesser
    ensures CompareOn(env, key, a, b) != Greater && CompareOn(env, key, b, c) == Lesser ==> CompareOn(env, key, a, c) == Lesser
  {
    var x, y, z := FindMatch(a, key.0), FindMatch(b, key.0), FindMatch(c, key.0);
    CompareCellsOrder(env, x, y, z);
    CompareCellsOrder(env, z, y, x);
    CompareCellsOrder(env, y, z, z);
    CompareCellsOrder(env, x, z, z);
  }

  lemma {:induction false} CompareReversed(env: Env, keys: SortKeys, a: Row, b: Row)
    ensures Compare(env, keys, b, a) == Reversed(Compare(env, keys, a, b))
  {
    if keys != [] {
      CompareOnOrder(env, keys[0], a, b, b);
      CompareReversed(env, keys[1..], a, b);
    }
  }

  lemma {:induction false} CompareTransitive(env: Env, keys: SortKeys, a: Row, b: Row, c: Row)
    requires Compare(env, keys, a, b) != Greater && Compare(env, keys, b, c) != Greater
    ensures Compare(env, keys, a, c) != Greater
  {
    if keys != [] {
      CompareOnOrder(env, keys[0], a, b, c);
      CompareOnOrder(env, keys[0], c, b, a);
      CompareOnOrder(env, keys[0], b, c, c);
      CompareOnOrder(env, keys[0], a, c, c);
      if CompareOn(env, keys[0], a, b) == Same && CompareOn(env, keys[0], b, c) == Same {
        CompareTransitive(env, keys[1..], a, b, c);
      }
    }
  }

  /** Any list of sort keys orders all rows, whatever columns they carry. */
  lemma RowOrderTotal(env: Env, keys: SortKeys)
    ensures TotalPreorder(RowOrder(env, keys))
  {
    forall a: Row, b: Row ensures RowOrder(env, keys)(a, b) || RowOrder(env, keys)(b, a) { CompareReversed(env, keys, a, b); }
    forall a: Row, b: Row, c: Row | RowOrder(env, keys)(a, b) && RowOrder(env, keys)(b, c) ensures RowOrder(env, keys)(a, c) {
      CompareTransitive(env, keys, a, b, c);
    }
  }

  // ----- sort, limit and their fusion -----

  /** What a quickselect promises: the same rows, none after position `n` smaller than any up to it. */
  predicate Partitioned<T(==)>(rows: seq<T>, chosen: seq<T>, n: nat, le: (T, T) -> bool) {
    && multiset(rows) == multiset(chosen) && n < |chosen|
    && forall i, j :: 0 <= i <= n < j < |chosen| ==> le(chosen[i], chosen[j])
  }

  /** The sort operator; `chosen` is the quickselect's arrangement of the rows. */
  method SortRows<T(!new)>(rows: seq<T>, topK: Option<nat>, le: (T, T) -> bool, chosen: seq<T>) returns (out: seq<T>)
    requires topK.Some? && 0 < topK.value < |rows| ==> Partitioned(rows, chosen, topK.value - 1, le)
    ensures topK.None? ==> out == Sort(rows, le)
    ensures topK.Some? ==> out == TopK(rows, topK.value, le, chosen)
  {
    var kept := rows;
    if topK.Some? {
      var k := topK.value;
      if k > 0 && |kept| > k {
        assert |multiset(rows)| == |multiset(chosen)|;
        kept := chosen;
        kept := kept[..k];
      }
    }
    out := Sort(kept, le);
  }

  function TopK<T>(rows: seq<T>, k: nat, le: (T, T) -> bool, chosen: seq<T>): seq<T>
    requires 0 < k < |rows| ==> k <= |chosen|
  {
    Sort(if 0 < k < |rows| then chosen[..k] else rows, le)
  }

  /** `Limit(Sort(rows), k)`. */
  function SortThenLimit<T>(rows: seq<T>, k: nat, le: (T, T) -> bool): seq<T> {
    var sorted := Sort(rows, le);
    if k < |sorted| then sorted[..k] else sorted
  }

  method LimitRows<T>(rows: seq<T>, limit: nat) returns (out: seq<T>)
    ensures out == if limit < |rows| then rows[..limit] else rows
  {
    out := [];
    var left := limit;
    var i := 0;
    while left > 0 && i < |rows|
      invariant 0 <= i <= |rows| && 0 <= left == limit - i && out == rows[..i]
      decreases left
    {
      TakeStep(rows, i);
      out := out + [rows[i]];
      left := left - 1;
      i := i + 1;
    }
    TakeAll(rows);
  }

  /** Same length, and equal sort keys position by position. */
  predicate SameKeys<T>(a: seq<T>, b: seq<T>, le: (T, T) -> bool) {
    |a| == |b| && forall i :: 0 <= i < |a| ==> le(a[i], b[i]) && le(b[i], a[i])
  }

  /** No row of `b` is smaller than any row of `a`. */
  predicate AllBelow<T>(a: seq<T>, b: seq<T>, le: (T, T) -> bool) {
    forall i, j :: 0 <= i < |a| && 0 <= j < |b| ==> le(a[i], b[j])
  }

  lemma AllBelowPermuted<T>(a: seq<T>, b: seq<T>, x: seq<T>, y: seq<T>, le: (T, T) -> bool)
    requires AllBelow(x, y, le) && multiset(a) == multiset(x) && multiset(b) == multiset(y)
    ensures AllBelow(a, b, le)
  {
    forall i, j | 0 <= i < |a| && 0 <= j < |b| ensures le(a[i], b[j]) {
      assert a[i] in multiset(x) && b[j] in multiset(y);
    }
  }

  lemma OrderedConcat<T>(a: seq<T>, b: seq<T>, le: (T, T) -> bool)
    requires Ordered(a, le) && Ordered(b, le) && AllBelow(a, b, le)
    ensures Ordered(a + b, le)
  {
  }

  lemma SameKeysPrefix<T>(a: seq<T>, b: seq<T>, full: seq<T>, le: (T, T) -> bool)
    requires SameKeys(a + b, full, le)
    ensures SameKeys(a, full[..|a|], le)
  {
    forall i | 0 <= i < |a| ensures le(a[i], full[..|a|][i]) && le(full[..|a|][i], a[i]) {
      assert (a + b)[i] == a[i];
    }
  }

  lemma PartitionSplits<T>(rows: seq<T>, k: nat, le: (T, T) -> bool, chosen: seq<T>)
    requires 0 < k <= |chosen| && Partitioned(rows, chosen, k - 1, le)
    ensures AllBelow(chosen[..k], chosen[k..], le) && multiset(chosen[..k]) + multiset(chosen[k..]) == multiset(rows)
  {
    assert chosen == chosen[..k] + chosen[k..];
  }

  /** Sorting both parts of a quickselect gives a sort of everything. */
  lemma SelectedSmallest<T(!new)>(rows: seq<T>, k: nat, le: (T, T) -> bool, chosen: seq<T>)
    requires TotalPreorder(le) && 0 < k <= |chosen| && Partitioned(rows, chosen, k - 1, le)
    ensures var kept, dropped := Sort(chosen[..k], le), Sort(chosen[k..], le);
            && |kept| == k && AllBelow(kept, dropped, le)
            && Ordered(kept, le) && Ordered(kept + dropped, le)
            && multiset(kept) + multiset(dropped) == multiset(rows)
  {
    var a, b := Sort(chosen[..k], le), Sort(chosen[k..], le);
    PartitionSplits(rows, k, le, chosen);
    SortPermutes(chosen[..k], le);
    SortPermutes(chosen[k..], le);
    AllBelowPermuted(a, b, chosen[..k], chosen[k..], le);
    SortOrdered(chosen[..k], le);
    SortOrdered(chosen[k..], le);
    OrderedConcat(a, b, le);
  }

  /**
   * For k >= 1 the fused sort returns min(k, n) rows of the input, in order, with the keys of the
   * first k of the full sort, and every row it drops is no smaller than any it keeps.
   */
  lemma TopKExact<T(!new)>(rows: seq<T>, k: nat, le: (T, T) -> bool, chosen: seq<T>) returns (dropped: seq<T>)
    requires TotalPreorder(le) && k > 0
    requires k < |rows| ==> k <= |chosen| && Partitioned(rows, chosen, k - 1, le)
    ensures var out := TopK(rows, k, le, chosen);
            && |out| == (if k < |rows| then k else |rows|) && Ordered(out, le)
            && multiset(out) + multiset(dropped) == multiset(rows) && AllBelow(out, dropped, le)
            && SameKeys(out, SortThenLimit(rows, k, le), le)
  {
    var out, full := TopK(rows, k, le, chosen), Sort(rows, le);
    SortPermutes(rows, le);
    SortOrdered(rows, le);
    dropped := [];
    if k < |rows| {
      SelectedSmallest(rows, k, le, chosen);
      dropped := Sort(chosen[k..], le);
      SortedAgree(out + dropped, full, le);
      SameKeysPrefix(out, dropped, full, le);
    }
  }

  /** LIMIT 0: the fused sort returns every row, so it is right exactly when there is none. */
  lemma TopKSound<T(!new)>(rows: seq<T>, k: nat, le: (T, T) -> bool, chosen: seq<T>)
    requires TotalPreorder(le)
    requires 0 < k < |rows| ==> k <= |chosen| && Partitioned(rows, chosen, k - 1, le)
    ensures SameKeys(TopK(rows, k, le, chosen), SortThenLimit(rows, k, le), le) <==> k > 0 || rows == []
  {
    SortPermutes(rows, le);
    if k > 0 { var _ := TopKExact(rows, k, le, chosen); }
  }

  /** `ORDER BY id LIMIT 0` on two rows: the fused sort returns both. */
  lemma LimitZeroReturnsAll(env: Env)
    ensures var rows: seq<Row> := [[([105, 100], Text([49]))], [([105, 100], Text([50]))]];
            var le := RowOrder(env, [([105, 100], true)]);
            |TopK(rows, 0, le, [])| == 2 && SortThenLimit(rows, 0, le) == []
  {
    var rows: seq<Row> := [[([105, 100], Text([49]))], [([105, 100], Text([50]))]];
    SortPermutes(rows, RowOrder(env, [([105, 100], true)]));
  }
}
