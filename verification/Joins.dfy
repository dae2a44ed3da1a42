/** Nested-loop, hash and merge joins. */
module Joins {
  import opened ByteStrings
  import opened Values
  import opened Columns
  import opened Sorting
  import Expressions

  // ----- concatenated images of a list -----

  function Collect<T, U>(s: seq<T>, f: T -> seq<U>): seq<U> {
    if s == [] then [] else Collect(s[..|s| - 1], f) + f(s[|s| - 1])
  }

  lemma {:induction false} CollectAppend<T, U>(a: seq<T>, b: seq<T>, f: T -> seq<U>)
    ensures Collect(a + b, f) == Collect(a, f) + Collect(b, f)
  {
    if b == [] {
      assert a + b == a;
    } else {
      var n := |b| - 1;
      assert (a + b)[..|a + b| - 1] == a + b[..n];
      CollectAppend(a, b[..n], f);
    }
  }

  lemma CollectWithout<T, U>(s: seq<T>, j: nat, f: T -> seq<U>)
    requires j < |s|
    ensures multiset(Collect(s, f)) == multiset(Collect(Without(s, j), f)) + multiset(f(s[j]))
  {
    TakeStep(s, j);
    assert s == s[..j + 1] + s[j + 1..];
    CollectAppend(s[..j + 1], s[j + 1..], f);
    CollectAppend(s[..j], s[j + 1..], f);
  }

  /** The multiset of images does not depend on the order of the list. */
  lemma {:induction false} CollectPermutation<T, U>(a: seq<T>, b: seq<T>, f: T -> seq<U>)
    requires multiset(a) == multiset(b)
    ensures multiset(Collect(a, f)) == multiset(Collect(b, f))
    decreases |a|
  {
    if a == [] {
      assert |multiset(b)| == 0;
    } else {
      var n := |a| - 1;
      WithoutMultiset(a, n);
      assert a[n] in multiset(b);
      var j :| 0 <= j < |b| && b[j] == a[n];
      WithoutMultiset(b, j);
      CollectPermutation(Without(a, n), Without(b, j), f);
      CollectWithout(a, n, f);
      CollectWithout(b, j, f);
    }
  }

  // ----- the reference: nested loops -----

  /** How rows are merged, and the ON clause evaluated on the merged row. */
  datatype On<!T> = On(merge: (T, T) -> T, holds: T -> Result<bool>)

  function Holds<T>(on: On<T>, l: T, r: T): Result<bool> {
    on.holds(on.merge(l, r))
  }

  function Pair<T>(on: On<T>, l: T): T -> seq<T> {
    r => if Holds(on, l, r) == Ok(true) then [on.merge(l, r)] else []
  }

  function Matches<T>(on: On<T>, right: seq<T>, l: T): seq<T> {
    Collect(right, Pair(on, l))
  }

  /** All pairs that satisfy ON, left row by left row. */
  function Nested<T>(on: On<T>, left: seq<T>, right: seq<T>): seq<T> {
    if left == [] then [] else Nested(on, left[..|left| - 1], right) + Matches(on, right, left[|left| - 1])
  }

  predicate NoErrors<T>(on: On<T>, left: seq<T>, right: seq<T>) {
    forall i, j :: 0 <= i < |left| && 0 <= j < |right| ==> Holds(on, left[i], right[j]).Ok?
  }

  /** Right row `j` is the first on which ON fails, with this error. */
  predicate FirstError<T>(on: On<T>, l: T, right: seq<T>, j: nat, error: Error)
    requires j < |right|
  {
    Holds(on, l, right[j]) == Err(error) && forall b :: 0 <= b < j ==> Holds(on, l, right[b]).Ok?
  }

  /** One left row against every right row. */
  method InnerLoop<T>(on: On<T>, l: T, right: seq<T>) returns (r: Result<seq<T>>)
    ensures r.Ok? ==> r.value == Matches(on, right, l) && forall j :: 0 <= j < |right| ==> Holds(on, l, right[j]).Ok?
    ensures r.Err? ==> exists j :: 0 <= j < |right| && FirstError(on, l, right, j, r.error)
  {
    var out: seq<T> := [];
    for ri := 0 to |right|
      invariant out == Collect(right[..ri], Pair(on, l))
      invariant forall j :: 0 <= j < ri ==> Holds(on, l, right[j]).Ok?
    {
      TakeStep(right, ri);
      var merged := on.merge(l, right[ri]);
      var keep := on.holds(merged);
      if keep.Err? {
        assert FirstError(on, l, right, ri, keep.error);
        return Err(keep.error);
      }
      if keep.value { out := out + [merged]; }
    }
    TakeAll(right);
    r := Ok(out);
  }

  /** The executor's loop over both cursors; the first evaluation error ends the query. */
  method NestedLoop<T>(on: On<T>, left: seq<T>, right: seq<T>) returns (r: Result<seq<T>>)
    ensures r.Ok? ==> NoErrors(on, left, right) && r.value == Nested(on, left, right)
    ensures r.Err? ==> exists i, j :: 0 <= i < |left| && 0 <= j < |right| && NoErrors(on, left[..i], right) && FirstError(on, left[i], right, j, r.error)
  {
    var out: seq<T> := [];
    for li := 0 to |left|
      invariant out == Nested(on, left[..li], right)
      invariant forall i, j :: 0 <= i < li && 0 <= j < |right| ==> Holds(on, left[i], right[j]).Ok?
    {
      TakeStep(left, li);
      var rows := InnerLoop(on, left[li], right);
      if rows.Err? {
        assert NoErrors(on, left[..li], right);
        return Err(rows.error);
      }
      out := out + rows.value;
    }
    TakeAll(left);
    r := Ok(out);
  }

  lemma {:induction false} NestedAppend<T>(on: On<T>, a: seq<T>, b: seq<T>, right: seq<T>)
    ensures Nested(on, a + b, right) == Nested(on, a, right) + Nested(on, b, right)
  {
    if b == [] {
      assert a + b == a;
    } else {
      var n := |b| - 1;
      assert (a + b)[..|a + b| - 1] == a + b[..n];
      NestedAppend(on, a, b[..n], right);
    }
  }

  lemma NestedWithout<T>(on: On<T>, left: seq<T>, right: seq<T>, j: nat)
    requires j < |left|
    ensures multiset(Nested(on, left, right)) == multiset(Nested(on, Without(left, j), right)) + multiset(Matches(on, right, left[j]))
  {
    TakeStep(left, j);
    assert left == left[..j + 1] + left[j + 1..];
    NestedAppend(on, left[..j + 1], left[j + 1..], right);
    NestedAppend(on, left[..j], left[j + 1..], right);
  }

  /** The bag of joined rows depends only on the bags of input rows. */
  lemma {:induction false} NestedPermutation<T>(on: On<T>, left: seq<T>, right: seq<T>, left2: seq<T>, right2: seq<T>)
    requires multiset(left) == multiset(left2) && multiset(right) == multiset(right2)
    ensures multiset(Nested(on, left, right)) == multiset(Nested(on, left2, right2))
    decreases |left|
  {
    if left == [] {
      assert |multiset(left2)| == 0;
    } else {
      var n := |left| - 1;
      WithoutMultiset(left, n);
      assert left[n] in multiset(left2);
      var j :| 0 <= j < |left2| && left2[j] == left[n];
      WithoutMultiset(left2, j);
      NestedPermutation(on, Without(left, n), right, Without(left2, j), right2);
      NestedWithout(on, left, right, n);
      NestedWithout(on, left2, right2, j);
      CollectPermutation(right, right2, Pair(on, left[n]));
    }
  }

  // ----- join keys -----

  function JoinKey(env: Env, row: Row, column: Bytes): Option<Bytes> {
    match FindMatch(row, column)
    case Some(v) => Some(AsBytes(env, v))
    case None => None
  }

  type KeyFn<!T> = T -> Option<Bytes>

  function KeyFor(env: Env, column: Bytes): KeyFn<Row> {
    row => JoinKey(env, row, column)
  }

  // ----- hash join -----

  function Bucketed(kr: KeyFn<Row>, right: seq<Row>): map<Bytes, seq<Row>> {
    if right == [] then map[]
    else
      var n := |right| - 1;
      var before := Bucketed(kr, right[..n]);
      match kr(right[n])
      case None => before
      case Some(k) => before[k := (if k in before then before[k] else []) + [right[n]]]
  }

  function WithKey(kr: KeyFn<Row>, right: seq<Row>, k: Bytes): seq<Row> {
    if right == [] then []
    else WithKey(kr, right[..|right| - 1], k) + if kr(right[|right| - 1]) == Some(k) then [right[|right| - 1]] else []
  }

  /** A bucket holds the right rows with its key, in order, and is never empty. */
  lemma {:induction false} BucketHolds(kr: KeyFn<Row>, right: seq<Row>, k: Bytes)
    ensures var b := Bucketed(kr, right);
            && (k in b <==> WithKey(kr, right, k) != [])
            && (k in b ==> b[k] == WithKey(kr, right, k))
  {
    if right != [] { BucketHolds(kr, right[..|right| - 1], k); }
  }

  /** The names of all right columns, in order of first appearance. */
  function AddNames(names: seq<Bytes>, row: Row): seq<Bytes> {
    if row == [] then names
    else
      var n := |row| - 1;
      var before := AddNames(names, row[..n]);
      if row[n].0 in before then before else before + [row[n].0]
  }

  function RightNames(right: seq<Row>): seq<Bytes> {
    if right == [] then [] else AddNames(RightNames(right[..|right| - 1]), right[|right| - 1])
  }

  /** NULL for every name the row does not have. */
  function Padded(row: Row, names: seq<Bytes>): Row {
    if names == [] then row
    else
      var n := |names| - 1;
      var before := Padded(row, names[..n]);
      if names[n] in Names(before) then before else before + [(names[n], Null)]
  }

  /** Every merge of the row with the right rows `found`. */
  function Merged(l: Row, found: seq<Row>): (out: seq<Row>)
    ensures |out| == |found|
    ensures forall i :: 0 <= i < |found| ==> out[i] == l + found[i]
  {
    if found == [] then [] else Merged(l, found[..|found| - 1]) + [l + found[|found| - 1]]
  }

  function FoundFor(kl: KeyFn<Row>, kr: KeyFn<Row>, right: seq<Row>, l: Row): seq<Row> {
    match kl(l) case Some(k) => WithKey(kr, right, k) case None => []
  }

  /** What one left row contributes. */
  function HashRow(kl: KeyFn<Row>, kr: KeyFn<Row>, right: seq<Row>, outer: bool, l: Row): seq<Row> {
    var found := FoundFor(kl, kr, right, l);
    if found != [] then Merged(l, found) else if outer then [Padded(l, RightNames(right))] else []
  }

  function HashRows(kl: KeyFn<Row>, kr: KeyFn<Row>, left: seq<Row>, right: seq<Row>, outer: bool): seq<Row> {
    if left == [] then []
    else HashRows(kl, kr, left[..|left| - 1], right, outer) + HashRow(kl, kr, right, outer, left[|left| - 1])
  }

  method CollectNames(right: seq<Row>) returns (names: seq<Bytes>)
    ensures names == RightNames(right)
  {
    names := [];
    for i := 0 to |right|
      invariant names == RightNames(right[..i])
    {
      TakeStep(right, i);
      var row := right[i];
      ghost var before := names;
      for j := 0 to |row|
        invariant names == AddNames(before, row[..j])
      {
        TakeStep(row, j);
        if row[j].0 !in names { names := names + [row[j].0]; }
      }
      TakeAll(row);
    }
    TakeAll(right);
  }

  method PadRow(l: Row, names: seq<Bytes>) returns (row: Row)
    ensures row == Padded(l, names)
  {
    row := l;
    for i := 0 to |names|
      invariant row == Padded(l, names[..i])
    {
      TakeStep(names, i);
      if names[i] !in Names(row) { row := row + [(names[i], Null)]; }
    }
    TakeAll(names);
  }

  /** Build buckets from the right side, probe with each left row. */
  method HashJoin(kl: KeyFn<Row>, kr: KeyFn<Row>, left: seq<Row>, right: seq<Row>, outer: bool) returns (out: seq<Row>)
    ensures out == HashRows(kl, kr, left, right, outer)
  {
    var names := CollectNames(right);
    var buckets: map<Bytes, seq<Row>> := map[];
    for i := 0 to |right|
      invariant buckets == Bucketed(kr, right[..i])
    {
      TakeStep(right, i);
      var key := kr(right[i]);
      if key.Some? {
        buckets := buckets[key.value := (if key.value in buckets then buckets[key.value] else []) + [right[i]]];
      }
    }
    TakeAll(right);
    out := [];
    for i := 0 to |left|
      invariant out == HashRows(kl, kr, left[..i], right, outer)
    {
      TakeStep(left, i);
      var l := left[i];
      var key := kl(l);
      if key.Some? { BucketHolds(kr, right, key.value); }
      if key.Some? && key.value in buckets {
        out := out + Merged(l, buckets[key.value]);
      } else if outer {
        var row := PadRow(l, names);
        out := out + [row];
      }
    }
    TakeAll(left);
  }

  // ----- hash join against nested loops -----

  /** Joined rows are the left fields and then the right fields. */
  function Concat(holds: Row -> Result<bool>): On<Row> {
    On((l: Row, r: Row) => l + r, holds)
  }

  /** ON holds exactly when both keys are there and equal. */
  predicate OnKeys(holds: Row -> Result<bool>, kl: KeyFn<Row>, kr: KeyFn<Row>, left: seq<Row>, right: seq<Row>) {
    forall i, j :: 0 <= i < |left| && 0 <= j < |right| ==>
      holds(left[i] + right[j]) == Ok(kl(left[i]).Some? && kl(left[i]) == kr(right[j]))
  }

  lemma {:induction false} FoundAreMatches(holds: Row -> Result<bool>, kl: KeyFn<Row>, kr: KeyFn<Row>, l: Row, right: seq<Row>)
    requires OnKeys(holds, kl, kr, [l], right)
    ensures Merged(l, FoundFor(kl, kr, right, l)) == Matches(Concat(holds), right, l)
  {
    if right != [] {
      var n := |right| - 1;
      assert [l][0] == l;
      FoundAreMatches(holds, kl, kr, l, right[..n]);
      var before := FoundFor(kl, kr, right[..n], l);
      assert Holds(Concat(holds), l, right[n]) == holds(l + right[n]);
      if kl(l).Some? && kl(l) == kr(right[n]) {
        assert (before + [right[n]])[..|before|] == before;
      }
    }
  }

  /** The inner hash join returns the nested loop's rows in the nested loop's order. */
  lemma {:induction false} HashIsNested(holds: Row -> Result<bool>, kl: KeyFn<Row>, kr: KeyFn<Row>, left: seq<Row>, right: seq<Row>)
    requires OnKeys(holds, kl, kr, left, right)
    ensures HashRows(kl, kr, left, right, false) == Nested(Concat(holds), left, right)
  {
    if left != [] {
      var n := |left| - 1;
      HashIsNested(holds, kl, kr, left[..n], right);
      FoundAreMatches(holds, kl, kr, left[n], right);
    }
  }

  /** A left outer join contributes each left row's matches, or the padded row when there are none. */
  lemma OuterRow(holds: Row -> Result<bool>, kl: KeyFn<Row>, kr: KeyFn<Row>, l: Row, right: seq<Row>)
    requires OnKeys(holds, kl, kr, [l], right)
    ensures var found := Matches(Concat(holds), right, l);
            && HashRow(kl, kr, right, true, l) == (if found == [] then [Padded(l, RightNames(right))] else found)
            && |HashRow(kl, kr, right, true, l)| == (if |found| > 1 then |found| else 1)
  {
    FoundAreMatches(holds, kl, kr, l, right);
  }

  lemma {:induction false} AddNamesExact(names: seq<Bytes>, row: Row, c: Bytes)
    ensures c in AddNames(names, row) <==> c in names || c in Names(row)
  {
    if row != [] {
      var n := |row| - 1;
      AddNamesExact(names, row[..n], c);
      assert Names(row) == Names(row[..n]) + [row[n].0];
    }
  }

  lemma {:induction false} RightNamesExact(right: seq<Row>, i: nat, c: Bytes)
    requires i < |right| && c in Names(right[i])
    ensures c in RightNames(right)
  {
    var n := |right| - 1;
    AddNamesExact(RightNames(right[..n]), right[n], c);
    if i < n { RightNamesExact(right[..n], i, c); }
  }

  /** Padding keeps the row's own columns and answers NULL for every other name padded. */
  lemma {:induction false} PaddedReads(row: Row, names: seq<Bytes>, c: Bytes)
    ensures Lookup(Padded(row, names), c)
         == if c in Names(row) then Lookup(row, c) else if c in names then Some(Null) else None
    ensures c in Names(Padded(row, names)) <==> c in Names(row) || c in names
  {
    if names == [] {
      LookupFound(row, c);
    } else {
      var n := |names| - 1;
      PaddedReads(row, names[..n], c);
      var before := Padded(row, names[..n]);
      assert names == names[..n] + [names[n]];
      if names[n] !in Names(before) {
        LookupAppend(before, (names[n], Null), c);
        assert Names(before + [(names[n], Null)]) == Names(before) + [names[n]];
        LookupFound(before, c);
      }
    }
  }

  /** An unmatched row answers NULL for every column of every right row it does not have itself. */
  lemma OuterNulls(l: Row, right: seq<Row>, j: nat, c: Bytes)
    requires j < |right| && c in Names(right[j])
    ensures Lookup(Padded(l, RightNames(right)), c) == if c in Names(l) then Lookup(l, c) else Some(Null)
  {
    RightNamesExact(right, j, c);
    PaddedReads(l, RightNames(right), c);
  }

  // ----- merge join -----

  /** An equi-join on keys under a total order: ON, the key of a row on either side, the order. */
  datatype Equi<!T, !K> = Equi(on: On<T>, kl: T -> K, kr: T -> K, le: (K, K) -> bool)

  ghost predicate KeysOrdered<T, K(!new)>(q: Equi<T, K>) {
    TotalPreorder(q.le) && forall a, b :: q.le(a, b) && q.le(b, a) ==> a == b
  }

  predicate Before<T, K(==)>(q: Equi<T, K>, a: K, b: K) {
    a != b && q.le(a, b)
  }

  function ByKey<T, K>(key: T -> K, le: (K, K) -> bool): (T, T) -> bool {
    (a, b) => le(key(a), key(b))
  }

  lemma ByKeyTotal<T(!new), K(!new)>(key: T -> K, le: (K, K) -> bool)
    requires TotalPreorder(le)
    ensures TotalPreorder(ByKey(key, le))
  {
  }

  /** ON holds exactly on equal keys. */
  predicate OnEqualKeys<T, K(==)>(q: Equi<T, K>, left: seq<T>, right: seq<T>) {
    forall i, j :: 0 <= i < |left| && 0 <= j < |right| ==> Holds(q.on, left[i], right[j]) == Ok(q.kl(left[i]) == q.kr(right[j]))
  }

  predicate FirstOfRun<T, K(==)>(q: Equi<T, K>, left: seq<T>, i: nat)
    requires i < |left|
  {
    i == 0 || q.kl(left[i - 1]) != q.kl(left[i])
  }

  /** Only the first left row of each key is ever paired. */
  function RunHeads<T, K(==)>(q: Equi<T, K>, left: seq<T>, right: seq<T>, i: nat): seq<T>
    requires i <= |left|
  {
    if i == 0 then []
    else RunHeads(q, left, right, i - 1) + if FirstOfRun(q, left, i - 1) then Matches(q.on, right, left[i - 1]) else []
  }

  lemma {:induction false} NoMatches<T>(on: On<T>, l: T, rows: seq<T>)
    requires forall b :: 0 <= b < |rows| ==> Holds(on, l, rows[b]) != Ok(true)
    ensures Collect(rows, Pair(on, l)) == []
  {
    if rows != [] { NoMatches(on, l, rows[..|rows| - 1]); }
  }

  /** Right rows from `j` on do not match: the matches are among the earlier ones. */
  lemma MatchesBefore<T>(on: On<T>, l: T, right: seq<T>, j: nat)
    requires j <= |right| && forall b :: j <= b < |right| ==> Holds(on, l, right[b]) != Ok(true)
    ensures Matches(on, right, l) == Collect(right[..j], Pair(on, l))
  {
    assert right == right[..j] + right[j..];
    CollectAppend(right[..j], right[j..], Pair(on, l));
    NoMatches(on, l, right[j..]);
  }

  /** Both sides are in key order and ON is key equality. */
  ghost predicate Mergeable<T, K(!new)>(q: Equi<T, K>, left: seq<T>, right: seq<T>) {
    && KeysOrdered(q) && OnEqualKeys(q, left, right)
    && Ordered(left, ByKey(q.kl, q.le)) && Ordered(right, ByKey(q.kr, q.le))
  }

  /** Key order between any two positions of the merged sides. */
  lemma LeftOrder<T, K(!new)>(q: Equi<T, K>, left: seq<T>, right: seq<T>, a: nat, b: nat)
    requires Mergeable(q, left, right) && a <= b < |left|
    ensures q.le(q.kl(left[a]), q.kl(left[b]))
  {
    assert a < b ==> ByKey(q.kl, q.le)(left[a], left[b]);
  }

  lemma RightOrder<T, K(!new)>(q: Equi<T, K>, left: seq<T>, right: seq<T>, a: nat, b: nat)
    requires Mergeable(q, left, right) && a <= b < |right|
    ensures q.le(q.kr(right[a]), q.kr(right[b]))
  {
    assert a < b ==> ByKey(q.kr, q.le)(right[a], right[b]);
  }

  lemma BeforeChain<T, K(!new)>(q: Equi<T, K>, a: K, b: K, c: K)
    requires KeysOrdered(q)
    ensures q.le(a, a) && (Before(q, a, b) || a == b || Before(q, b, a)) && !(Before(q, a, b) && q.le(b, a))
    ensures q.le(a, b) && q.le(b, c) ==> q.le(a, c)
    ensures Before(q, a, b) && q.le(b, c) ==> Before(q, a, c)
    ensures q.le(a, b) && Before(q, b, c) ==> Before(q, a, c)
  {
  }

  /** The keys behind each cursor. */
  predicate Behind<T, K(==)>(q: Equi<T, K>, left: seq<T>, right: seq<T>, i: nat, j: nat)
    requires i <= |left| && j <= |right|
  {
    && (i < |left| ==> forall b :: 0 <= b < j ==> q.le(q.kr(right[b]), q.kl(left[i])))
    && (j < |right| ==> forall a :: 0 <= a < i ==> Before(q, q.kl(left[a]), q.kr(right[j])))
  }

  /** The output when the cursors stand at `i` and `j`. */
  function Emitted<T, K(==)>(q: Equi<T, K>, left: seq<T>, right: seq<T>, i: nat, j: nat): seq<T>
    requires i <= |left| && j <= |right|
  {
    RunHeads(q, left, right, i)
    + if i < |left| && FirstOfRun(q, left, i) then Collect(right[..j], Pair(q.on, left[i])) else []
  }

  lemma BehindLeft<T, K(!new)>(q: Equi<T, K>, left: seq<T>, right: seq<T>, i: nat, j: nat)
    requires i < |left| && j <= |right| && Mergeable(q, left, right) && Behind(q, left, right, i, j)
    requires j < |right| ==> Before(q, q.kl(left[i]), q.kr(right[j]))
    ensures Behind(q, left, right, i + 1, j)
    ensures forall b :: j <= b < |right| ==> q.kl(left[i]) != q.kr(right[b])
    ensures i + 1 < |left| && FirstOfRun(q, left, i + 1) ==> forall b :: 0 <= b < j ==> q.kl(left[i + 1]) != q.kr(right[b])
  {
    forall b | j <= b < |right| ensures q.kl(left[i]) != q.kr(right[b]) {
      RightOrder(q, left, right, j, b);
      BeforeChain(q, q.kl(left[i]), q.kr(right[j]), q.kr(right[b]));
    }
    if i + 1 < |left| {
      LeftOrder(q, left, right, i, i + 1);
      forall b | 0 <= b < j
        ensures q.le(q.kr(right[b]), q.kl(left[i + 1]))
        ensures FirstOfRun(q, left, i + 1) ==> q.kl(left[i + 1]) != q.kr(right[b])
      {
        BeforeChain(q, q.kr(right[b]), q.kl(left[i]), q.kl(left[i + 1]));
      }
    }
  }

  lemma BehindRight<T, K(!new)>(q: Equi<T, K>, left: seq<T>, right: seq<T>, i: nat, j: nat)
    requires i < |left| && j < |right| && Mergeable(q, left, right) && Behind(q, left, right, i, j)
    requires q.le(q.kr(right[j]), q.kl(left[i]))
    ensures Behind(q, left, right, i, j + 1)
    ensures q.kl(left[i]) == q.kr(right[j]) ==> FirstOfRun(q, left, i)
  {
    if i > 0 { BeforeChain(q, q.kl(left[i - 1]), q.kr(right[j]), q.kl(left[i])); }
    if j + 1 < |right| {
      RightOrder(q, left, right, j, j + 1);
      forall a | 0 <= a < i ensures Before(q, q.kl(left[a]), q.kr(right[j + 1])) {
        BeforeChain(q, q.kl(left[a]), q.kr(right[j]), q.kr(right[j + 1]));
      }
    }
  }

  /** The left cursor moves on: nothing more is emitted for its row, nothing yet for the next. */
  lemma AdvanceLeft<T, K(!new)>(q: Equi<T, K>, left: seq<T>, right: seq<T>, i: nat, j: nat)
    requires i < |left| && j <= |right| && Mergeable(q, left, right) && Behind(q, left, right, i, j)
    requires j < |right| ==> Before(q, q.kl(left[i]), q.kr(right[j]))
    ensures Behind(q, left, right, i + 1, j)
    ensures Emitted(q, left, right, i + 1, j) == Emitted(q, left, right, i, j)
  {
    BehindLeft(q, left, right, i, j);
    MatchesBefore(q.on, left[i], right, j);
    if i + 1 < |left| && FirstOfRun(q, left, i + 1) { NoMatches(q.on, left[i + 1], right[..j]); }
  }

  /** The right cursor moves on: its row is emitted exactly when the keys are equal. */
  lemma AdvanceRight<T, K(!new)>(q: Equi<T, K>, left: seq<T>, right: seq<T>, i: nat, j: nat)
    requires i < |left| && j < |right| && Mergeable(q, left, right) && Behind(q, left, right, i, j)
    requires q.le(q.kr(right[j]), q.kl(left[i]))
    ensures Behind(q, left, right, i, j + 1)
    ensures q.kl(left[i]) == q.kr(right[j]) ==>
              Emitted(q, left, right, i, j + 1) == Emitted(q, left, right, i, j) + [q.on.merge(left[i], right[j])]
    ensures q.kl(left[i]) != q.kr(right[j]) ==> Emitted(q, left, right, i, j + 1) == Emitted(q, left, right, i, j)
  {
    BehindRight(q, left, right, i, j);
    TakeStep(right, j);
    assert Holds(q.on, left[i], right[j]) == Ok(q.kl(left[i]) == q.kr(right[j]));
  }

  lemma LeftUsedUp<T, K>(q: Equi<T, K>, left: seq<T>, right: seq<T>, j: nat)
    requires j <= |right|
    ensures Emitted(q, left, right, |left|, j) == RunHeads(q, left, right, |left|)
  {
  }

  /** When the right side is used up, no later key has a match. */
  lemma LaterUnmatched<T, K(!new)>(q: Equi<T, K>, left: seq<T>, right: seq<T>, i: nat, a: nat)
    requires i < a < |left| && Mergeable(q, left, right) && Behind(q, left, right, i, |right|) && FirstOfRun(q, left, a)
    ensures Matches(q.on, right, left[a]) == []
  {
    LeftOrder(q, left, right, i, a - 1);
    LeftOrder(q, left, right, a - 1, a);
    forall b | 0 <= b < |right| ensures Holds(q.on, left[a], right[b]) != Ok(true) {
      BeforeChain(q, q.kr(right[b]), q.kl(left[i]), q.kl(left[a - 1]));
      BeforeChain(q, q.kr(right[b]), q.kl(left[a - 1]), q.kl(left[a]));
    }
    NoMatches(q.on, left[a], right);
  }

  lemma {:induction false} NoLaterHeads<T, K>(q: Equi<T, K>, left: seq<T>, right: seq<T>, i: nat, k: nat)
    requires i < k <= |left|
    requires forall a :: i < a < |left| && FirstOfRun(q, left, a) ==> Matches(q.on, right, left[a]) == []
    ensures RunHeads(q, left, right, k) == RunHeads(q, left, right, i + 1)
  {
    if k > i + 1 { NoLaterHeads(q, left, right, i, k - 1); }
  }

  lemma RightUsedUp<T, K(!new)>(q: Equi<T, K>, left: seq<T>, right: seq<T>, i: nat)
    requires i < |left| && Mergeable(q, left, right) && Behind(q, left, right, i, |right|)
    ensures Emitted(q, left, right, i, |right|) == RunHeads(q, left, right, |left|)
  {
    forall a | i < a < |left| && FirstOfRun(q, left, a) ensures Matches(q.on, right, left[a]) == [] {
      LaterUnmatched(q, left, right, i, a);
    }
    NoLaterHeads(q, left, right, i, |left|);
    TakeAll(right);
  }

  lemma CursorsDone<T, K(!new)>(q: Equi<T, K>, left: seq<T>, right: seq<T>, i: nat, j: nat)
    requires i <= |left| && j <= |right| && (i == |left| || j == |right|)
    requires Mergeable(q, left, right) && Behind(q, left, right, i, j)
    ensures Emitted(q, left, right, i, j) == RunHeads(q, left, right, |left|)
  {
    if i < |left| { RightUsedUp(q, left, right, i); } else { LeftUsedUp(q, left, right, j); }
  }

  function SortedLeft<T, K>(q: Equi<T, K>, left: seq<T>): seq<T> {
    Sort(left, ByKey(q.kl, q.le))
  }

  function SortedRight<T, K>(q: Equi<T, K>, right: seq<T>): seq<T> {
    Sort(right, ByKey(q.kr, q.le))
  }

  lemma SortedMergeable<T(!new), K(!new)>(q: Equi<T, K>, left: seq<T>, right: seq<T>)
    requires KeysOrdered(q) && OnEqualKeys(q, left, right)
    ensures Mergeable(q, SortedLeft(q, left), SortedRight(q, right))
  {
    var ls, rs := SortedLeft(q, left), SortedRight(q, right);
    SortPermutes(left, ByKey(q.kl, q.le));
    SortPermutes(right, ByKey(q.kr, q.le));
    ByKeyTotal(q.kl, q.le);
    ByKeyTotal(q.kr, q.le);
    SortOrdered(left, ByKey(q.kl, q.le));
    SortOrdered(right, ByKey(q.kr, q.le));
    forall i, j | 0 <= i < |ls| && 0 <= j < |rs| ensures Holds(q.on, ls[i], rs[j]) == Ok(q.kl(ls[i]) == q.kr(rs[j])) {
      assert ls[i] in multiset(left) && rs[j] in multiset(right);
    }
  }

  /** What the merge join returns: the matches of the first left row of each key, in key order. */
  function MergeRows<T, K(==)>(q: Equi<T, K>, left: seq<T>, right: seq<T>): seq<T> {
    var ls := SortedLeft(q, left);
    RunHeads(q, ls, SortedRight(q, right), |ls|)
  }

  /** The two-cursor loop. On equal keys only the right cursor moves. */
  method MergeSorted<T, K(==, !new)>(q: Equi<T, K>, ls: seq<T>, rs: seq<T>) returns (r: Result<seq<T>>)
    requires KeysOrdered(q)
    ensures Mergeable(q, ls, rs) ==> r == Ok(RunHeads(q, ls, rs, |ls|))
  {
    ghost var exact := Mergeable(q, ls, rs);
    var out: seq<T> := [];
    var i, j := 0, 0;
    while i < |ls| && j < |rs|
      invariant 0 <= i <= |ls| && 0 <= j <= |rs|
      invariant exact ==> Behind(q, ls, rs, i, j) && out == Emitted(q, ls, rs, i, j)
      decreases |ls| - i + |rs| - j
    {
      var lk, rk := q.kl(ls[i]), q.kr(rs[j]);
      BeforeChain(q, lk, rk, rk);
      if lk != rk && q.le(lk, rk) {
        if exact { AdvanceLeft(q, ls, rs, i, j); }
        i := i + 1;
      } else {
        if exact { AdvanceRight(q, ls, rs, i, j); }
        if lk == rk {
          var merged := q.on.merge(ls[i], rs[j]);
          var keep := q.on.holds(merged);
          if keep.Err? { return Err(keep.error); }
          if keep.value { out := out + [merged]; }
        }
        j := j + 1;
      }
    }
    if exact { CursorsDone(q, ls, rs, i, j); }
    r := Ok(out);
  }

  method MergeJoin<T(!new), K(==, !new)>(q: Equi<T, K>, left: seq<T>, right: seq<T>) returns (r: Result<seq<T>>)
    requires KeysOrdered(q)
    ensures OnEqualKeys(q, left, right) ==> r == Ok(MergeRows(q, left, right))
  {
    if OnEqualKeys(q, left, right) { SortedMergeable(q, left, right); }
    r := MergeSorted(q, SortedLeft(q, left), SortedRight(q, right));
  }

  // ----- when the merge join is the join -----

  function IsKey<T, K(==)>(key: T -> K, k: K): T -> seq<()> {
    row => if key(row) == k then [()] else []
  }

  /** How many rows have the key. */
  function KeyCount<T, K(==)>(key: T -> K, rows: seq<T>, k: K): nat {
    |Collect(rows, IsKey(key, k))|
  }

  lemma KeyCountPermutation<T, K>(key: T -> K, a: seq<T>, b: seq<T>, k: K)
    requires multiset(a) == multiset(b)
    ensures KeyCount(key, a, k) == KeyCount(key, b, k)
  {
    CollectPermutation(a, b, IsKey(key, k));
    assert |multiset(Collect(a, IsKey(key, k)))| == |multiset(Collect(b, IsKey(key, k)))|;
  }

  lemma {:induction false} FindKey<T, K>(key: T -> K, rows: seq<T>, k: K) returns (p: nat)
    requires KeyCount(key, rows, k) > 0
    ensures p < |rows| && key(rows[p]) == k
  {
    p := |rows| - 1;
    if key(rows[p]) != k { p := FindKey(key, rows[..p], k); }
  }

  lemma {:induction false} FindTwo<T, K>(key: T -> K, rows: seq<T>, k: K) returns (p: nat, p2: nat)
    requires KeyCount(key, rows, k) > 1
    ensures p < p2 < |rows| && key(rows[p]) == k && key(rows[p2]) == k
  {
    p2 := |rows| - 1;
    if key(rows[p2]) == k {
      p := FindKey(key, rows[..p2], k);
    } else {
      p, p2 := FindTwo(key, rows[..p2], k);
    }
  }

  lemma {:induction false} KeyOccurs<T, K>(key: T -> K, rows: seq<T>, p: nat)
    requires p < |rows|
    ensures KeyCount(key, rows, key(rows[p])) > 0
  {
    if p < |rows| - 1 { KeyOccurs(key, rows[..|rows| - 1], p); }
  }

  lemma {:induction false} KeyOccursTwice<T, K>(key: T -> K, rows: seq<T>, p: nat, p2: nat)
    requires p < p2 < |rows| && key(rows[p]) == key(rows[p2])
    ensures KeyCount(key, rows, key(rows[p])) > 1
  {
    var n := |rows| - 1;
    if p2 == n {
      KeyOccurs(key, rows[..n], p);
    } else {
      KeyOccursTwice(key, rows[..n], p, p2);
    }
  }

  lemma {:induction false} FindMatching<T>(on: On<T>, l: T, right: seq<T>) returns (j: nat)
    requires Matches(on, right, l) != []
    ensures j < |right| && Holds(on, l, right[j]) == Ok(true)
  {
    j := |right| - 1;
    if Holds(on, l, right[j]) != Ok(true) { j := FindMatching(on, l, right[..j]); }
  }

  lemma {:induction false} HasMatch<T>(on: On<T>, l: T, right: seq<T>, j: nat)
    requires j < |right| && Holds(on, l, right[j]) == Ok(true)
    ensures Matches(on, right, l) != []
  {
    if j < |right| - 1 { HasMatch(on, l, right[..|right| - 1], j); }
  }

  /** A left row with matches that is not the first of its key. */
  predicate Skipped<T(==), K(==)>(q: Equi<T, K>, left: seq<T>, right: seq<T>, a: nat)
    requires a < |left|
  {
    !FirstOfRun(q, left, a) && Matches(q.on, right, left[a]) != []
  }

  predicate NoneSkipped<T(==), K(==)>(q: Equi<T, K>, left: seq<T>, right: seq<T>) {
    forall a {:trigger Skipped(q, left, right, a)} :: 0 <= a < |left| ==> !Skipped(q, left, right, a)
  }

  function NestedUpTo<T>(on: On<T>, left: seq<T>, right: seq<T>, i: nat): seq<T>
    requires i <= |left|
  {
    if i == 0 then [] else NestedUpTo(on, left, right, i - 1) + Matches(on, right, left[i - 1])
  }

  lemma {:induction false} NestedTake<T>(on: On<T>, left: seq<T>, right: seq<T>, i: nat)
    requires i <= |left|
    ensures NestedUpTo(on, left, right, i) == Nested(on, left[..i], right)
  {
    if i > 0 {
      TakeStep(left, i - 1);
      NestedTake(on, left, right, i - 1);
    }
  }

  lemma HeadsStep<T, K>(q: Equi<T, K>, left: seq<T>, right: seq<T>, i: nat)
    requires i < |left| && !Skipped(q, left, right, i)
    ensures RunHeads(q, left, right, i + 1) == RunHeads(q, left, right, i) + Matches(q.on, right, left[i])
  {
  }

  lemma {:induction false} HeadsAgree<T, K>(q: Equi<T, K>, left: seq<T>, right: seq<T>, i: nat)
    requires i <= |left| && NoneSkipped(q, left, right)
    ensures RunHeads(q, left, right, i) == NestedUpTo(q.on, left, right, i)
  {
    if i > 0 {
      HeadsAgree(q, left, right, i - 1);
      HeadsStep(q, left, right, i - 1);
    }
  }

  /** How far the heads fall behind the full join after `i` left rows. */
  function Missing<T, K(==)>(q: Equi<T, K>, left: seq<T>, right: seq<T>, i: nat): int
    requires i <= |left|
  {
    |NestedUpTo(q.on, left, right, i)| - |RunHeads(q, left, right, i)|
  }

  lemma MissingStep<T, K>(q: Equi<T, K>, left: seq<T>, right: seq<T>, i: nat)
    requires i < |left|
    ensures Missing(q, left, right, i) <= Missing(q, left, right, i + 1)
    ensures Skipped(q, left, right, i) ==> Missing(q, left, right, i) < Missing(q, left, right, i + 1)
  {
  }

  lemma {:induction false} MissingGrows<T, K>(q: Equi<T, K>, left: seq<T>, right: seq<T>, i: nat, j: nat)
    requires i <= j <= |left|
    ensures Missing(q, left, right, i) <= Missing(q, left, right, j)
  {
    if i < j {
      MissingGrows(q, left, right, i, j - 1);
      MissingStep(q, left, right, j - 1);
    }
  }

  /** A skipped left row's matches are missing. */
  lemma HeadsFewer<T, K>(q: Equi<T, K>, left: seq<T>, right: seq<T>, a: nat)
    requires a < |left| && Skipped(q, left, right, a)
    ensures Missing(q, left, right, |left|) > 0
  {
    MissingGrows(q, left, right, 0, a);
    MissingStep(q, left, right, a);
    MissingGrows(q, left, right, a + 1, |left|);
  }

  /** Some key of the right side occurs twice on the left. */
  predicate RightKeyRepeats<T, K(==)>(q: Equi<T, K>, left: seq<T>, right: seq<T>) {
    exists j :: 0 <= j < |right| && KeyCount(q.kl, left, q.kr(right[j])) > 1
  }

  lemma SkippedRepeats<T, K>(q: Equi<T, K>, left: seq<T>, right: seq<T>, a: nat)
    requires OnEqualKeys(q, left, right) && a < |left| && Skipped(q, left, right, a)
    ensures RightKeyRepeats(q, left, right)
  {
    var j := FindMatching(q.on, left[a], right);
    KeyOccursTwice(q.kl, left, a - 1, a);
    assert KeyCount(q.kl, left, q.kr(right[j])) > 1;
  }

  lemma RepeatSkipped<T, K(!new)>(q: Equi<T, K>, left: seq<T>, right: seq<T>, j: nat) returns (a: nat)
    requires Mergeable(q, left, right) && j < |right| && KeyCount(q.kl, left, q.kr(right[j])) > 1
    ensures a < |left| && Skipped(q, left, right, a)
  {
    var p;
    p, a := FindTwo(q.kl, left, q.kr(right[j]));
    HasMatch(q.on, left[a], right, j);
    LeftOrder(q, left, right, p, a - 1);
    LeftOrder(q, left, right, a - 1, a);
  }

  /** In key order, a matching left row is skipped exactly when a right key occurs twice on the left. */
  lemma SkippedIffRepeated<T, K(!new)>(q: Equi<T, K>, left: seq<T>, right: seq<T>)
    requires Mergeable(q, left, right)
    ensures !NoneSkipped(q, left, right) <==> RightKeyRepeats(q, left, right)
  {
    if a :| 0 <= a < |left| && Skipped(q, left, right, a) {
      SkippedRepeats(q, left, right, a);
    }
    if j :| 0 <= j < |right| && KeyCount(q.kl, left, q.kr(right[j])) > 1 {
      var a := RepeatSkipped(q, left, right, j);
    }
  }

  lemma RepeatsAgree<T, K>(q: Equi<T, K>, left: seq<T>, right: seq<T>, ls: seq<T>, rs: seq<T>)
    requires multiset(left) == multiset(ls) && multiset(right) == multiset(rs)
    ensures RightKeyRepeats(q, left, right) ==> RightKeyRepeats(q, ls, rs)
  {
    if j :| 0 <= j < |right| && KeyCount(q.kl, left, q.kr(right[j])) > 1 {
      assert right[j] in multiset(rs);
      var i :| 0 <= i < |rs| && rs[i] == right[j];
      KeyCountPermutation(q.kl, left, ls, q.kr(right[j]));
      assert KeyCount(q.kl, ls, q.kr(rs[i])) > 1;
    }
  }

  /**
   * The merge join returns the nested loop's bag of rows if and only if no key of the right side
   * occurs twice on the left; the right side may repeat keys at will.
   */
  lemma MergeIsNested<T(!new), K(!new)>(q: Equi<T, K>, left: seq<T>, right: seq<T>)
    requires KeysOrdered(q) && OnEqualKeys(q, left, right)
    ensures multiset(MergeRows(q, left, right)) == multiset(Nested(q.on, left, right)) <==> !RightKeyRepeats(q, left, right)
  {
    var ls, rs := SortedLeft(q, left), SortedRight(q, right);
    SortPermutes(left, ByKey(q.kl, q.le));
    SortPermutes(right, ByKey(q.kr, q.le));
    NestedPermutation(q.on, left, right, ls, rs);
    SortedMergeable(q, left, right);
    TakeAll(ls);
    NestedTake(q.on, ls, rs, |ls|);
    if a :| 0 <= a < |ls| && Skipped(q, ls, rs, a) { HeadsFewer(q, ls, rs, a); } else { HeadsAgree(q, ls, rs, |ls|); }
    SkippedIffRepeated(q, ls, rs);
    RepeatsAgree(q, left, right, ls, rs);
    RepeatsAgree(q, ls, rs, left, right);
    var heads, all := MergeRows(q, left, right), Nested(q.on, ls, rs);
    if multiset(heads) == multiset(all) { assert |multiset(heads)| == |heads| && |multiset(all)| == |all|; }
  }

  // ----- the executor's keys: missing keys sort first, present ones by bytes -----

  predicate KeyLeq(a: Option<Bytes>, b: Option<Bytes>) {
    match (a, b)
    case (None, _) => true
    case (Some(_), None) => false
    case (Some(x), Some(y)) => Leq(x, y)
  }

  function EquiJoin(env: Env, holds: Row -> Result<bool>, left: Bytes, right: Bytes): Equi<Row, Option<Bytes>> {
    Equi(Concat(holds), KeyFor(env, left), KeyFor(env, right), KeyLeq)
  }

  lemma KeyLeqTotal(env: Env, holds: Row -> Result<bool>, left: Bytes, right: Bytes)
    ensures KeysOrdered(EquiJoin(env, holds, left, right))
  {
    forall a: Option<Bytes>, b: Option<Bytes>
      ensures KeyLeq(a, b) || KeyLeq(b, a)
      ensures KeyLeq(a, b) && KeyLeq(b, a) ==> a == b
    {
      if a.Some? && b.Some? { Trichotomy(a.value, b.value); }
    }
    forall a: Option<Bytes>, b: Option<Bytes>, c: Option<Bytes> | KeyLeq(a, b) && KeyLeq(b, c) ensures KeyLeq(a, c) {
      if a.Some? && b.Some? && c.Some? { LeqTransitive(a.value, b.value, c.value); }
    }
  }

  // ----- `ON a.c = b.d` is key equality -----

  /** The name finds one field, by its exact name, and the field holds text. */
  predicate Resolves(row: Row, name: Bytes) {
    && Lookup(row, name).Some? && Lookup(row, name).value.Text?
    && forall i :: 0 <= i < |row| && NameMatches(row[i].0, name) ==> row[i].0 == name
  }

  lemma {:induction false} ResolvesMatch(row: Row, name: Bytes)
    requires forall i :: 0 <= i < |row| && NameMatches(row[i].0, name) ==> row[i].0 == name
    ensures FindMatch(row, name) == Lookup(row, name)
  {
    if row != [] && row[0].0 != name {
      assert !NameMatches(row[0].0, name);
      ResolvesMatch(row[1..], name);
    }
  }

  lemma {:induction false} LookupConcat(l: Row, r: Row, c: Bytes)
    ensures Lookup(l + r, c) == if Lookup(l, c).Some? then Lookup(l, c) else Lookup(r, c)
  {
    if l == [] {
      assert l + r == r;
    } else {
      assert (l + r)[1..] == l[1..] + r;
      LookupConcat(l[1..], r, c);
    }
  }

  function EquiOn(env: Env, a: Bytes, c: Bytes, b: Bytes, d: Bytes): Row -> Result<bool> {
    row => Expressions.EvalPredicate(env,
             Expressions.Binary(Expressions.Eq, Expressions.Column(Some(a), c), Expressions.Column(Some(b), d)), row)
  }

  /** When both key columns resolve uniquely to text, ON holds exactly on equal key bytes. */
  lemma EquiOnKeys(env: Env, a: Bytes, c: Bytes, b: Bytes, d: Bytes, l: Row, r: Row)
    requires Resolves(l, Qualify(a, c)) && Resolves(r, Qualify(b, d)) && Qualify(b, d) !in Names(l)
    ensures var lk, rk := JoinKey(env, l, Qualify(a, c)), JoinKey(env, r, Qualify(b, d));
            lk.Some? && rk.Some? && EquiOn(env, a, c, b, d)(l + r) == Ok(lk == rk)
  {
    ResolvesMatch(l, Qualify(a, c));
    ResolvesMatch(r, Qualify(b, d));
    LookupConcat(l, r, Qualify(a, c));
    LookupConcat(l, r, Qualify(b, d));
    LookupFound(l, Qualify(b, d));
    var x, y := Expressions.Column(Some(a), c), Expressions.Column(Some(b), d);
    assert Expressions.Eval(env, x, l + r) == Ok(Lookup(l, Qualify(a, c)).value);
    assert Expressions.Eval(env, y, l + r) == Ok(Lookup(r, Qualify(b, d)).value);
    assert Expressions.Eval(env, Expressions.Binary(Expressions.Eq, x, y), l + r)
        == Ok(Bool(Lookup(l, Qualify(a, c)) == Lookup(r, Qualify(b, d))));
  }

  /** So the hash join on `a.c = b.d` is the nested loop. */
  lemma EquiHashJoin(env: Env, a: Bytes, c: Bytes, b: Bytes, d: Bytes, left: seq<Row>, right: seq<Row>)
    requires forall i :: 0 <= i < |left| ==> Resolves(left[i], Qualify(a, c)) && Qualify(b, d) !in Names(left[i])
    requires forall j :: 0 <= j < |right| ==> Resolves(right[j], Qualify(b, d))
    ensures var kl, kr := KeyFor(env, Qualify(a, c)), KeyFor(env, Qualify(b, d));
            HashRows(kl, kr, left, right, false) == Nested(Concat(EquiOn(env, a, c, b, d)), left, right)
  {
    var kl, kr, holds := KeyFor(env, Qualify(a, c)), KeyFor(env, Qualify(b, d)), EquiOn(env, a, c, b, d);
    forall i, j | 0 <= i < |left| && 0 <= j < |right|
      ensures holds(left[i] + right[j]) == Ok(kl(left[i]).Some? && kl(left[i]) == kr(right[j]))
    {
      EquiOnKeys(env, a, c, b, d, left[i], right[j]);
    }
    HashIsNested(holds, kl, kr, left, right);
  }

  /** And the merge join on `a.c = b.d` is the nested loop, up to order, if and only if no right key repeats on the left. */
  lemma EquiMergeJoin(env: Env, a: Bytes, c: Bytes, b: Bytes, d: Bytes, left: seq<Row>, right: seq<Row>)
    requires forall i :: 0 <= i < |left| ==> Resolves(left[i], Qualify(a, c)) && Qualify(b, d) !in Names(left[i])
    requires forall j :: 0 <= j < |right| ==> Resolves(right[j], Qualify(b, d))
    ensures var q := EquiJoin(env, EquiOn(env, a, c, b, d), Qualify(a, c), Qualify(b, d));
            && OnEqualKeys(q, left, right)
            && (multiset(MergeRows(q, left, right)) == multiset(Nested(q.on, left, right)) <==> !RightKeyRepeats(q, left, right))
  {
    var holds := EquiOn(env, a, c, b, d);
    var q := EquiJoin(env, holds, Qualify(a, c), Qualify(b, d));
    forall i, j | 0 <= i < |left| && 0 <= j < |right| ensures Holds(q.on, left[i], right[j]) == Ok(q.kl(left[i]) == q.kr(right[j])) {
      EquiOnKeys(env, a, c, b, d, left[i], right[j]);
    }
    KeyLeqTotal(env, holds, Qualify(a, c), Qualify(b, d));
    MergeIsNested(q, left, right);
  }

  // ----- two left rows with one key -----

  /** The merge join pairs the first left row of a key and drops the second. */
  lemma SecondDropped<T(!new), K(!new)>(q: Equi<T, K>, x: T, y: T, r: T)
    requires KeysOrdered(q) && OnEqualKeys(q, [x, y], [r]) && q.kl(x) == q.kl(y) == q.kr(r)
    ensures Nested(q.on, [x, y], [r]) == [q.on.merge(x, r), q.on.merge(y, r)]
    ensures MergeRows(q, [x, y], [r]) == [q.on.merge(x, r)]
  {
    var left, right := [x, y], [r];
    assert left[0] == x && left[1] == y && right[0] == r;
    assert Holds(q.on, left[0], right[0]) == Ok(true) && Holds(q.on, left[1], right[0]) == Ok(true);
    OneMatch(q.on, x, r);
    OneMatch(q.on, y, r);
    assert left[..1] == [x] && [x][..0] == [];
    assert Nested(q.on, [x][..0], right) == [];
    assert q.le(q.kl(x), q.kl(y));
    SortFixed(left, ByKey(q.kl, q.le));
    SortFixed(right, ByKey(q.kr, q.le));
    assert FirstOfRun(q, left, 0) && !FirstOfRun(q, left, 1);
    assert RunHeads(q, left, right, 0) == [];
    assert RunHeads(q, left, right, 1) == [q.on.merge(x, r)];
  }

  lemma OneMatch<T>(on: On<T>, l: T, r: T)
    requires Holds(on, l, r) == Ok(true)
    ensures Matches(on, [r], l) == [on.merge(l, r)]
  {
    assert [r][..0] == [];
    assert Collect([r][..0], Pair(on, l)) == [];
  }

  /** A row `t.c = k, t.o = v`: the key column resolves and its bytes are the join key. */
  lemma KeyResolves(env: Env, t: Bytes, c: Bytes, k: Bytes, o: Bytes, v: Bytes)
    requires Bare(c) != Bare(o)
    ensures var row: Row := [(Qualify(t, c), Text(k)), (Qualify(t, o), Text(v))];
            Resolves(row, Qualify(t, c)) && JoinKey(env, row, Qualify(t, c)) == Some(k)
  {
    var row: Row := [(Qualify(t, c), Text(k)), (Qualify(t, o), Text(v))];
    Expressions.BareAfterDot(t, c);
    Expressions.BareAfterDot(t, o);
    NameMatchesBare(row[0].0, Qualify(t, c));
    NameMatchesBare(row[1].0, Qualify(t, c));
  }

  /** `a.c = b.d` on two left rows and one right row, all with key 1: the join has two rows, the merge join returns one. */
  lemma MergeDropsRow(env: Env)
    ensures var a, b, c, d, o := [97], [98], [99], [100], [111];
            var q := EquiJoin(env, EquiOn(env, a, c, b, d), Qualify(a, c), Qualify(b, d));
            var x: Row, y: Row := [(Qualify(a, c), Text([49])), (Qualify(a, o), Text([50]))], [(Qualify(a, c), Text([49])), (Qualify(a, o), Text([51]))];
            var r: Row := [(Qualify(b, d), Text([49])), (Qualify(b, o), Text([52]))];
            Nested(q.on, [x, y], [r]) == [x + r, y + r] && MergeRows(q, [x, y], [r]) == [x + r]
  {
    var a, b, c, d, o: Bytes := [97], [98], [99], [100], [111];
    var q := EquiJoin(env, EquiOn(env, a, c, b, d), Qualify(a, c), Qualify(b, d));
    var x: Row, y: Row := [(Qualify(a, c), Text([49])), (Qualify(a, o), Text([50]))], [(Qualify(a, c), Text([49])), (Qualify(a, o), Text([51]))];
    var r: Row := [(Qualify(b, d), Text([49])), (Qualify(b, o), Text([52]))];
    assert c[0] != o[0] && d[0] != o[0] && !Dotted(c) && !Dotted(d) && !Dotted(o);
    KeyResolves(env, a, c, [49], o, [50]);
    KeyResolves(env, a, c, [49], o, [51]);
    KeyResolves(env, b, d, [49], o, [52]);
    assert Qualify(b, d)[0] != Qualify(a, c)[0] && Qualify(b, d)[0] != Qualify(a, o)[0];
    EquiMergeJoin(env, a, c, b, d, [x, y], [r]);
    KeyLeqTotal(env, EquiOn(env, a, c, b, d), Qualify(a, c), Qualify(b, d));
    SecondDropped(q, x, y, r);
  }
}
